/** The bounded data queue between any number of producers and the one writer thread. */
module IpcQueue {
  import opened IpcFrame
  import opened Wrappers

  const TWO_32 := 0x1_0000_0000

  function Plus(a: int, b: int): DWord { (a + b) % TWO_32 }

  function Minus(a: int, b: int): DWord { (a - b) % TWO_32 }

  lemma PlusOn(a: DWord, n: nat)
    requires n > 0
    ensures Plus(Plus(a, 1), n - 1) == Plus(a, n)
  {
    if a + 1 == TWO_32 {
      assert Plus(a, 1) == 0;
      assert a + n == TWO_32 + (n - 1);
    } else {
      assert Plus(a, 1) == a + 1;
    }
  }

  lemma PlusNone(a: DWord)
    ensures Plus(a, 0) == a
  {
  }

  // ---------- The part guarded by the mutex ----------

  datatype Message = Message(kind: Word, session: DWord, generation: DWord, payload: seq<Byte>)

  /** A message that passed the length check. */
  type Request = m: Message | |m.payload| <= DATA_MAX witness Message(0, 0, 0, [])

  datatype Queue = Queue(frames: seq<seq<Byte>>, bytes: DWord, count: DWord, peak: DWord, discarded: DWord,
                         sequence: DWord)

  function Numbered(r: Request, sequence: DWord): seq<Byte> {
    Frame(Command(r.kind, r.session, r.generation, sequence, r.payload))
  }

  function Max(a: DWord, b: DWord): DWord { if a < b then b else a }

  predicate Room(q: Queue, r: Request) {
    q.count < QUEUE_FRAMES && HEADER_SIZE + |r.payload| <= Minus(QUEUE_MAX, q.bytes)
  }

  function Push(q: Queue, r: Request): Queue {
    if !Room(q, r) then q
    else
      var sequence, bytes := Plus(q.sequence, 1), Plus(q.bytes, HEADER_SIZE + |r.payload|);
      Queue(q.frames + [Numbered(r, sequence)], bytes, Plus(q.count, 1), Max(q.peak, bytes), q.discarded, sequence)
  }

  function Pop(q: Queue): Queue {
    if q.frames == [] then q else q.(frames := q.frames[1..])
  }

  function Settle(q: Queue, size: nat, written: bool): Queue {
    q.(bytes := Minus(q.bytes, size), count := Minus(q.count, 1),
       discarded := if written then q.discarded else Plus(q.discarded, 1))
  }

  /** The final clear leaves the counters of queued frames and bytes as they were. */
  function Clear(q: Queue): Queue {
    q.(frames := [], discarded := Plus(q.discarded, |q.frames|))
  }

  class DataQueue {
    var frames: seq<seq<Byte>>
    var queuedBytes: DWord
    var queuedFrames: DWord
    var peakBytes: DWord
    var discardedFrames: DWord
    var dataSequence: DWord

    ghost function State(): Queue
      reads this
    {
      Queue(frames, queuedBytes, queuedFrames, peakBytes, discardedFrames, dataSequence)
    }

    constructor ()
      ensures State() == START.queue
    {
      frames, queuedBytes, queuedFrames, peakBytes, discardedFrames, dataSequence := [], 0, 0, 0, 0, 0;
    }

    method PushTail(r: Request) returns (ok: bool)
      modifies this
      ensures ok == Room(old(State()), r) && State() == Push(old(State()), r)
    {
      var size := HEADER_SIZE + |r.payload|;
      if queuedFrames >= QUEUE_FRAMES || size > Minus(QUEUE_MAX, queuedBytes) {
        return false;
      }
      dataSequence := Plus(dataSequence, 1);
      frames := frames + [Header(r.kind, r.session, r.generation, dataSequence, |r.payload|) + r.payload];
      queuedBytes := Plus(queuedBytes, size);
      queuedFrames := Plus(queuedFrames, 1);
      peakBytes := Max(peakBytes, queuedBytes);
      return true;
    }

    method PopHead() returns (frame: Option<seq<Byte>>)
      modifies this
      ensures State() == Pop(old(State()))
      ensures frame == if old(frames) == [] then None else Some(old(frames)[0])
    {
      if frames == [] {
        return None;
      }
      frame := Some(frames[0]);
      frames := frames[1..];
    }

    method SettleFrame(frame: seq<Byte>, written: bool)
      modifies this
      ensures State() == Settle(old(State()), |frame|, written)
    {
      queuedBytes := Minus(queuedBytes, |frame|);
      queuedFrames := Minus(queuedFrames, 1);
      if !written {
        discardedFrames := Plus(discardedFrames, 1);
      }
    }

    method ClearFrames()
      modifies this
      ensures State() == Clear(old(State()))
    {
      hide Plus;
      while frames != []
        invariant State() == old(State()).(frames := frames, discarded := discardedFrames)
        invariant Plus(discardedFrames, |frames|) == old(Plus(discardedFrames, |frames|))
        decreases |frames|
      {
        PlusOn(discardedFrames, |frames|);
        frames := frames[1..];
        discardedFrames := Plus(discardedFrames, 1);
      }
      PlusNone(discardedFrames);
    }
  }

  // ---------- Producers, writer and stopper as atomic steps ----------

  /** Where the writer thread stands. `Writing` is about to test whether bytes are left and whether to
      stop, `Sending` is inside the system's write, `Settling` is about to take the mutex again. */
  datatype Writer =
    | Checking
    | Popping
    | Writing(frame: seq<Byte>, offset: nat)
    | Sending(frame: seq<Byte>, offset: nat)
    | Settling(frame: seq<Byte>, offset: nat, written: bool)
    | Failing
    | Done
  {
    predicate Holds() { Writing? || Sending? || Settling? }
  }

  /** The shared state and, as history, the requests accepted so far with their frames, how many frames were
      settled as written, and how far the frame the writer gave up had got. */
  datatype World = World(queue: Queue, writer: Writer, stopping: bool, failed: bool, pipe: seq<Byte>,
                         admitted: seq<Request>, accepted: seq<Request>, sent: seq<seq<Byte>>, written: nat,
                         torn: Option<nat>, cleared: bool)

  const START := World(Queue([], 0, 0, 0, 0, 0), Checking, false, false, [], [], [], [], 0, None, false)

  datatype Event =
    | Admit(m: Message)
    | Enqueue(k: nat)
    | Look
    | Take
    | Test
    | Send(k: nat)
    | SendFails(k: nat)
    | Release
    | Fail
    | Stop
    | Clean

  /** Clearing happens once, after the writer ended and no producer is left. */
  predicate Possible(w: World, e: Event) {
    match e
    case Admit(_) => true
    case Enqueue(k) => k < |w.admitted|
    case Look => w.writer.Checking?
    case Take => w.writer.Popping?
    case Test => w.writer.Writing? && w.writer.offset <= |w.writer.frame|
    case Send(k) => w.writer.Sending? && 1 <= k && w.writer.offset + k <= |w.writer.frame|
    case SendFails(k) => w.writer.Sending? && w.writer.offset + k < |w.writer.frame|
    case Release => w.writer.Settling?
    case Fail => w.writer.Failing?
    case Stop => true
    case Clean => w.writer.Done? && w.stopping && w.admitted == [] && !w.cleared
  }

  function Step(w: World, e: Event): World
    requires Possible(w, e)
  {
    match e
    case Admit(m) => if |m.payload| > DATA_MAX || w.stopping then w else w.(admitted := w.admitted + [m])
    case Enqueue(k) =>
      var r := w.admitted[k];
      w.(admitted := w.admitted[..k] + w.admitted[k + 1..],
         queue := Push(w.queue, r),
         accepted := if Room(w.queue, r) then w.accepted + [r] else w.accepted,
         sent := if Room(w.queue, r) then w.sent + [Numbered(r, Plus(w.queue.sequence, 1))] else w.sent)
    case Look => w.(writer := if w.stopping then Done else Popping)
    case Take =>
      w.(writer := if w.queue.frames == [] then Checking else Writing(w.queue.frames[0], 0), queue := Pop(w.queue))
    case Test =>
      var Writing(frame, offset) := w.writer;
      w.(writer := if offset == |frame| then Settling(frame, offset, true)
                   else if w.stopping then Settling(frame, offset, false)
                   else Sending(frame, offset))
    case Send(k) =>
      var Sending(frame, offset) := w.writer;
      w.(writer := Writing(frame, offset + k), pipe := w.pipe + frame[offset..offset + k])
    case SendFails(k) =>
      var Sending(frame, offset) := w.writer;
      w.(writer := Settling(frame, offset + k, false), pipe := w.pipe + frame[offset..offset + k])
    case Release =>
      var Settling(frame, offset, written) := w.writer;
      w.(writer := if written then Checking else Failing, queue := Settle(w.queue, |frame|, written),
         written := if written then w.written + 1 else w.written, torn := if written then w.torn else Some(offset))
    case Fail => w.(writer := Done, failed := w.failed || !w.stopping)
    case Stop => w.(stopping := true)
    case Clean => w.(queue := Clear(w.queue), cleared := true)
  }

  // ---------- What every interleaving keeps ----------

  /** The frames of the accepted requests, numbered from 1 modulo 2^32. */
  function Frames(accepted: seq<Request>): (fs: seq<seq<Byte>>)
    ensures |fs| == |accepted|
  {
    seq(|accepted|, i requires 0 <= i < |accepted| => Numbered(accepted[i], Plus(i, 1)))
  }

  function Flat(frames: seq<seq<Byte>>): seq<Byte> {
    if frames == [] then [] else Flat(frames[..|frames| - 1]) + frames[|frames| - 1]
  }

  function Held(writer: Writer): seq<Byte> {
    if writer.Holds() then writer.frame else []
  }

  function HeldCount(writer: Writer): nat {
    if writer.Holds() then 1 else 0
  }

  function TornCount(torn: Option<nat>): nat {
    if torn.Some? then 1 else 0
  }

  /** How many bytes of the first frame not settled as written are in the pipe. */
  function Reached(w: World): nat {
    if w.writer.Holds() then w.writer.offset else if w.torn.Some? then w.torn.value else 0
  }

  /** The queue holds the frames of the accepted requests that the writer has not taken. */
  ghost predicate InOrder(w: World) {
    var taken := w.written + HeldCount(w.writer) + TornCount(w.torn);
    && taken <= |w.sent| == |w.accepted|
    && (w.queue.frames == if w.cleared then [] else w.sent[taken..])
    && (w.writer.Holds() ==> w.writer.frame == w.sent[w.written])
    && (w.torn.Some? ==> w.torn.value < |w.sent[w.written]|)
  }

  /** The frames are those of the accepted requests, numbered one after the other. */
  ghost predicate InNumber(w: World) {
    w.queue.sequence == |w.accepted| % TWO_32 && w.sent == Frames(w.accepted)
  }

  /** The bytes of the first `n` frames, and then the first `part` bytes of the next one. */
  ghost predicate Delivered(frames: seq<seq<Byte>>, n: nat, part: nat, pipe: seq<Byte>) {
    && n <= |frames|
    && if part == 0 then pipe == Flat(frames[..n])
       else n < |frames| && part <= |frames[n]| && pipe == Flat(frames[..n]) + frames[n][..part]
  }

  ghost predicate Counted(w: World) {
    && w.queue.bytes <= w.queue.peak <= QUEUE_MAX
    && (!w.cleared ==>
          && w.queue.bytes == |Flat(w.queue.frames)| + |Held(w.writer)|
          && w.queue.count == |w.queue.frames| + HeldCount(w.writer) <= QUEUE_FRAMES
          && w.queue.discarded == TornCount(w.torn))
    && (w.cleared ==> w.queue.discarded == |w.accepted| - w.written)
  }

  predicate Placed(w: World) {
    && (w.torn.Some? ==> w.writer.Failing? || w.writer.Done?)
    && (w.failed ==> w.torn.Some? && w.writer.Done?)
    && (w.cleared ==> w.writer.Done? && w.stopping && w.admitted == [])
    && (w.writer.Done? ==> w.stopping || w.failed)
    && match w.writer {
      case Writing(frame, offset) => offset <= |frame|
      case Sending(frame, offset) => offset < |frame|
      case Settling(frame, offset, written) => if written then offset == |frame| else offset < |frame|
      case Failing => w.torn.Some?
      case _ => true
    }
  }

  ghost predicate Inv(w: World) {
    Placed(w) && InOrder(w) && Counted(w) && Delivered(w.sent, w.written, Reached(w), w.pipe)
  }

  lemma {:induction false} FlatAppends(a: seq<seq<Byte>>, b: seq<seq<Byte>>)
    ensures Flat(a + b) == Flat(a) + Flat(b)
    decreases |b|
  {
    hide Flat;
    NoFrames();
    if b == [] {
      assert a + b == a;
    } else {
      FlatLast(b);
      FlatLast(a + b);
      FlatAppends(a, b[..|b| - 1]);
      assert (a + b)[..|a + b| - 1] == a + b[..|b| - 1];
    }
  }

  lemma NoFrames()
    ensures Flat([]) == []
  {
  }

  lemma FlatLast(frames: seq<seq<Byte>>)
    requires frames != []
    ensures Flat(frames) == Flat(frames[..|frames| - 1]) + frames[|frames| - 1]
  {
  }

  lemma FlatOne(f: seq<Byte>)
    ensures Flat([f]) == f
  {
    assert [f][..0] == [];
  }

  lemma FramesGrow(accepted: seq<Request>, r: Request)
    ensures Frames(accepted + [r]) == Frames(accepted) + [Numbered(r, Plus(|accepted|, 1))]
  {
  }

  lemma DeliverMore(frames: seq<seq<Byte>>, n: nat, part: nat, pipe: seq<Byte>, k: nat)
    requires Delivered(frames, n, part, pipe) && n < |frames| && part + k <= |frames[n]|
    ensures Delivered(frames, n, part + k, pipe + frames[n][part..part + k])
  {
    hide Flat;
    assert frames[n][..part] + frames[n][part..part + k] == frames[n][..part + k];
  }

  lemma DeliverNext(frames: seq<seq<Byte>>, n: nat, pipe: seq<Byte>)
    requires n < |frames| && Delivered(frames, n, |frames[n]|, pipe)
    ensures Delivered(frames, n + 1, 0, pipe)
  {
    FlatAppends(frames[..n], [frames[n]]);
    FlatOne(frames[n]);
    assert frames[..n] + [frames[n]] == frames[..n + 1];
    assert frames[n][..|frames[n]|] == frames[n];
  }

  lemma DeliverStays(frames: seq<seq<Byte>>, n: nat, part: nat, pipe: seq<Byte>, f: seq<Byte>)
    requires Delivered(frames, n, part, pipe)
    ensures Delivered(frames + [f], n, part, pipe)
  {
    assert (frames + [f])[..n] == frames[..n];
  }

  /** Within the bounds nothing wraps, except the sequence number. */
  lemma PushExactly(q: Queue, r: Request)
    requires q.count <= QUEUE_FRAMES && q.bytes <= q.peak <= QUEUE_MAX
    ensures Room(q, r) <==> q.count < 64 && q.bytes + 24 + |r.payload| <= 1_048_576
    ensures !Room(q, r) ==> Push(q, r) == q
    ensures Room(q, r) ==>
              var f := Numbered(r, Plus(q.sequence, 1));
              && |f| == HEADER_SIZE + |r.payload|
              && Push(q, r) == Queue(q.frames + [f], q.bytes + |f|, q.count + 1, Max(q.peak, q.bytes + |f|),
                                     q.discarded, Plus(q.sequence, 1))
  {
    hide Frame;
  }

  lemma EnqueueKeeps(w: World, k: nat)
    requires Inv(w) && Possible(w, Enqueue(k))
    ensures Inv(Step(w, Enqueue(k)))
  {
    hide Numbered, Flat, Delivered, Room, Push, Plus, Minus, Placed, InOrder, Counted;
    EnqueuePlaced(w, k);
    if Room(w.queue, w.admitted[k]) {
      EnqueueOrdered(w, k);
      EnqueueDelivers(w, k);
      EnqueueCounted(w, k);
    } else {
      EnqueueRefused(w, k);
    }
  }

  lemma EnqueuePlaced(w: World, k: nat)
    requires Placed(w) && Possible(w, Enqueue(k))
    ensures Placed(Step(w, Enqueue(k)))
  {
    hide Room, Push, Numbered, Plus;
  }

  lemma EnqueueRefused(w: World, k: nat)
    requires InOrder(w) && Counted(w) && Delivered(w.sent, w.written, Reached(w), w.pipe)
    requires Possible(w, Enqueue(k)) && !Room(w.queue, w.admitted[k])
    ensures var v := Step(w, Enqueue(k));
            InOrder(v) && Counted(v) && Delivered(v.sent, v.written, Reached(v), v.pipe)
  {
    hide Flat, Delivered, Room, Numbered, Plus;
  }

  /** Nothing but the queue and the requests changes. */
  lemma EnqueueIs(w: World, k: nat)
    requires Possible(w, Enqueue(k)) && Room(w.queue, w.admitted[k])
    ensures var v, r, f := Step(w, Enqueue(k)), w.admitted[k], Numbered(w.admitted[k], Plus(w.queue.sequence, 1));
            && v.queue.sequence == Plus(w.queue.sequence, 1) && v.accepted == w.accepted + [r] && v.sent == w.sent + [f]
            && v.queue.frames == w.queue.frames + [f]
            && v.written == w.written && v.writer == w.writer && v.torn == w.torn && v.cleared == w.cleared
            && v.pipe == w.pipe
  {
    hide Numbered, Room, Plus;
  }

  lemma EnqueueOrdered(w: World, k: nat)
    requires Placed(w) && InOrder(w) && Possible(w, Enqueue(k)) && Room(w.queue, w.admitted[k])
    ensures InOrder(Step(w, Enqueue(k)))
  {
    hide Numbered, Room, Plus, Step;
    EnqueueIs(w, k);
    SliceMore(w.sent, w.written + HeldCount(w.writer) + TornCount(w.torn),
              Numbered(w.admitted[k], Plus(w.queue.sequence, 1)));
  }

  lemma EnqueueDelivers(w: World, k: nat)
    requires Delivered(w.sent, w.written, Reached(w), w.pipe) && Possible(w, Enqueue(k)) && Room(w.queue, w.admitted[k])
    ensures var v := Step(w, Enqueue(k)); Delivered(v.sent, v.written, Reached(v), v.pipe)
  {
    hide Numbered, Delivered, Room, Plus, Step;
    EnqueueIs(w, k);
    DeliverStays(w.sent, w.written, Reached(w), w.pipe, Numbered(w.admitted[k], Plus(w.queue.sequence, 1)));
  }

  /** Only an accepted request changes the numbering, by one more number. */
  lemma NumberKeeps(w: World, e: Event)
    requires InNumber(w) && Possible(w, e)
    ensures InNumber(Step(w, e))
  {
    hide Numbered, Frames, Room, Plus, Minus;
    if e.Enqueue? && Room(w.queue, w.admitted[e.k]) {
      EnqueueIs(w, e.k);
      NextSequence(w.queue.sequence, |w.accepted|);
      FramesGrow(w.accepted, w.admitted[e.k]);
    }
  }

  lemma SliceMore(frames: seq<seq<Byte>>, n: nat, f: seq<Byte>)
    requires n <= |frames|
    ensures (frames + [f])[n..] == frames[n..] + [f]
  {
  }

  lemma EnqueueCounted(w: World, k: nat)
    requires Placed(w) && Counted(w) && Possible(w, Enqueue(k)) && Room(w.queue, w.admitted[k])
    ensures Counted(Step(w, Enqueue(k)))
  {
    hide Numbered, Flat, Room, Push, Plus, Minus;
    var r, f := w.admitted[k], Numbered(w.admitted[k], Plus(w.queue.sequence, 1));
    PushExactly(w.queue, r);
    FlatAppends(w.queue.frames, [f]);
    FlatOne(f);
  }

  lemma StartHolds()
    ensures Inv(START) && InNumber(START)
  {
    hide Placed, InOrder, Counted, Delivered, InNumber;
    StartPlaced();
    StartCounted();
    StartNumber();
  }

  lemma StartPlaced()
    ensures Placed(START) && InOrder(START)
  {
  }

  lemma StartCounted()
    ensures Counted(START) && Delivered(START.sent, START.written, Reached(START), START.pipe)
  {
    hide Flat;
    NoFrames();
  }

  lemma StartNumber()
    ensures InNumber(START)
  {
    hide Numbered, Plus;
    assert Frames([]) == [];
  }

  lemma NextSequence(sequence: DWord, n: nat)
    requires sequence == n % TWO_32
    ensures Plus(sequence, 1) == Plus(n, 1) == (n + 1) % TWO_32
  {
  }

  lemma TakeKeeps(w: World)
    requires Inv(w) && Possible(w, Take)
    ensures Inv(Step(w, Take))
  {
    hide Flat, Delivered, InOrder, Counted;
    TakePlaced(w);
    TakeOrdered(w);
    TakeCounted(w);
  }

  lemma TakePlaced(w: World)
    requires Placed(w) && Possible(w, Take)
    ensures Placed(Step(w, Take)) && Reached(Step(w, Take)) == 0 == Reached(w)
    ensures Step(w, Take).pipe == w.pipe && Step(w, Take).sent == w.sent && Step(w, Take).written == w.written
  {
  }

  lemma TakeOrdered(w: World)
    requires Placed(w) && InOrder(w) && Possible(w, Take)
    ensures InOrder(Step(w, Take))
  {
  }

  lemma TakeCounted(w: World)
    requires Placed(w) && Counted(w) && Possible(w, Take)
    ensures Counted(Step(w, Take))
  {
    hide Flat;
    if w.queue.frames != [] {
      FlatAppends([w.queue.frames[0]], w.queue.frames[1..]);
      FlatOne(w.queue.frames[0]);
      assert [w.queue.frames[0]] + w.queue.frames[1..] == w.queue.frames;
    }
  }

  lemma SendKeeps(w: World, k: nat)
    requires Inv(w) && Possible(w, Send(k))
    ensures Inv(Step(w, Send(k)))
  {
    hide Flat, Delivered;
    DeliverMore(w.sent, w.written, w.writer.offset, w.pipe, k);
  }

  lemma SendFailsKeeps(w: World, k: nat)
    requires Inv(w) && Possible(w, SendFails(k))
    ensures Inv(Step(w, SendFails(k)))
  {
    hide Flat, Delivered;
    DeliverMore(w.sent, w.written, w.writer.offset, w.pipe, k);
  }

  lemma SettleExactly(q: Queue, size: nat, written: bool)
    requires size <= q.bytes && 1 <= q.count && q.discarded <= QUEUE_FRAMES
    ensures Settle(q, size, written) ==
            q.(bytes := q.bytes - size, count := q.count - 1,
               discarded := if written then q.discarded else q.discarded + 1)
  {
  }

  lemma WrittenKeeps(w: World)
    requires Inv(w) && Possible(w, Release) && w.writer.written
    ensures Inv(Step(w, Release))
  {
    hide Flat, Delivered, Settle;
    SettleExactly(w.queue, |w.writer.frame|, true);
    DeliverNext(w.sent, w.written, w.pipe);
  }

  lemma TornKeeps(w: World)
    requires Inv(w) && Possible(w, Release) && !w.writer.written
    ensures Inv(Step(w, Release))
  {
    hide Flat, Delivered, Settle;
    SettleExactly(w.queue, |w.writer.frame|, false);
  }

  lemma CleanKeeps(w: World)
    requires Inv(w) && Possible(w, Clean)
    ensures Inv(Step(w, Clean))
  {
    hide Flat, Delivered;
  }

  /** The steps that touch neither the queue nor the pipe nor the frame being written. */
  predicate Quiet(e: Event) { e.Admit? || e.Look? || e.Test? || e.Fail? || e.Stop? }

  lemma QuietPlaced(w: World, e: Event)
    requires Placed(w) && Possible(w, e) && Quiet(e)
    ensures Placed(Step(w, e))
  {
  }

  lemma QuietIs(w: World, e: Event)
    requires Possible(w, e) && Quiet(e)
    ensures var v := Step(w, e);
            && v.queue == w.queue && v.pipe == w.pipe && v.accepted == w.accepted && v.sent == w.sent
            && v.written == w.written && v.torn == w.torn && v.cleared == w.cleared
            && Held(v.writer) == Held(w.writer) && HeldCount(v.writer) == HeldCount(w.writer) &&
                Reached(v) == Reached(w)
  {
  }

  lemma QuietKeeps(w: World, e: Event)
    requires Inv(w) && Possible(w, e) && Quiet(e)
    ensures Inv(Step(w, e))
  {
    hide Flat, Delivered, Step, Placed;
    QuietPlaced(w, e);
    QuietIs(w, e);
  }

  lemma StepKeeps(w: World, e: Event)
    requires Inv(w) && Possible(w, e)
    ensures Inv(Step(w, e)) && w.queue.bytes <= w.queue.peak
    ensures Step(w, e).queue.peak == Max(w.queue.peak, Step(w, e).queue.bytes)
  {
    hide Inv, Step;
    match e {
      case Enqueue(k) => EnqueueKeeps(w, k);
      case Take => TakeKeeps(w);
      case Send(k) => SendKeeps(w, k);
      case SendFails(k) => SendFailsKeeps(w, k);
      case Release =>
        if w.writer.written { WrittenKeeps(w); } else { TornKeeps(w); }
      case Clean => CleanKeeps(w);
      case _ => QuietKeeps(w, e);
    }
    PeakKeeps(w, e);
  }

  lemma PeakKeeps(w: World, e: Event)
    requires Inv(w) && Possible(w, e)
    ensures w.queue.bytes <= w.queue.peak && Step(w, e).queue.peak == Max(w.queue.peak, Step(w, e).queue.bytes)
  {
    hide Flat, Delivered, InOrder, Push, Settle, Numbered;
    match e
    case Enqueue(k) => PushExactly(w.queue, w.admitted[k]);
    case Release => SettleExactly(w.queue, |w.writer.frame|, w.writer.written);
    case _ =>
  }

  // ---------- Whole runs ----------

  ghost predicate Reaches(w: World, events: seq<Event>, last: World)
    decreases |events|
  {
    if events == [] then last == w else Possible(w, events[0]) && Reaches(Step(w, events[0]), events[1..], last)
  }

  /** The most bytes queued in any state of a run. */
  function Highest(w: World, events: seq<Event>): DWord
    decreases |events|
  {
    if events == [] || !Possible(w, events[0]) then w.queue.bytes
    else Max(w.queue.bytes, Highest(Step(w, events[0]), events[1..]))
  }

  lemma {:induction false} RunKeeps(w: World, events: seq<Event>, last: World)
    requires Inv(w) && InNumber(w) && Reaches(w, events, last)
    ensures Inv(last) && InNumber(last) && last.queue.peak == Max(w.queue.peak, Highest(w, events))
    decreases |events|
  {
    hide Inv, InNumber, Step;
    if events == [] {
      assert w.queue.bytes <= w.queue.peak by { StepKeeps(w, Stop); }
    } else {
      StepKeeps(w, events[0]);
      NumberKeeps(w, events[0]);
      RunKeeps(Step(w, events[0]), events[1..], last);
    }
  }

  lemma FromStart(events: seq<Event>, last: World)
    requires Reaches(START, events, last)
    ensures Inv(last) && InNumber(last) && last.queue.peak == Highest(START, events)
  {
    hide Inv, InNumber, Reaches, Step, Highest;
    StartHolds();
    RunKeeps(START, events, last);
    assert START.queue.peak == 0;
  }

  /** Every accepted frame is written, discarded or still counted as queued, and the counters are exact. */
  lemma NothingIsLost(events: seq<Event>, last: World)
    requires Reaches(START, events, last)
    ensures last.written <= |last.accepted|
    ensures !last.cleared ==> |last.accepted| == last.written + last.queue.discarded + last.queue.count
    ensures last.cleared ==> |last.accepted| == last.written + last.queue.discarded
    ensures !last.cleared ==>
            last.queue.bytes == |Flat(last.queue.frames)| + |Held(last.writer)| && last.queue.count <= 64
    ensures last.queue.bytes <= last.queue.peak <= 1_048_576
    ensures last.writer.Done? ==> last.stopping || last.failed
  {
    hide Flat, Frames, Delivered, Reaches, Step, Highest;
    FromStart(events, last);
  }

  /** The pipe carries the accepted requests in order, numbered from 1 modulo 2^32: those settled as
      written, then a part of the next one, which is whole only until the writer settles it. */
  lemma PipeIsInOrder(events: seq<Event>, last: World)
    requires Reaches(START, events, last)
    ensures Delivered(Frames(last.accepted), last.written, Reached(last), last.pipe)
    ensures last.torn.Some? || last.writer.Sending? || (last.writer.Settling? && !last.writer.written) ==>
              last.written < |last.accepted| && Reached(last) < |Frames(last.accepted)[last.written]|
  {
    hide Flat, Frames, Delivered, Reaches, Step, Highest;
    FromStart(events, last);
  }

  /** The reported peak is the most bytes that were ever queued at once. */
  lemma PeakIsHighest(events: seq<Event>, last: World)
    requires Reaches(START, events, last)
    ensures last.queue.peak == Highest(START, events)
  {
    hide Flat, Frames, Delivered, Reaches, Step, Highest;
    FromStart(events, last);
  }

  /** Somewhere in the run the writer gave up before any stop. */
  ghost predicate GaveUp(events: seq<Event>) {
    exists k :: 0 <= k < |events| && events[k].Fail? && Stop !in events[..k]
  }

  lemma GaveUpMore(events: seq<Event>, e: Event)
    ensures GaveUp(events + [e]) <==> GaveUp(events) || (e.Fail? && Stop !in events)
  {
    var more := events + [e];
    assert forall k :: 0 <= k < |events| ==> more[k] == events[k] && more[..k] == events[..k];
    assert more[|events|] == e && more[..|events|] == events;
  }

  lemma StopsAndFails(w: World, e: Event)
    requires Possible(w, e)
    ensures Step(w, e).stopping <==> w.stopping || e.Stop?
    ensures Step(w, e).failed <==> w.failed || (e.Fail? && !w.stopping)
  {
  }

  /** The queue reports a failure exactly when the writer gave up a frame before anybody asked it to stop. */
  lemma {:induction false} FailureIsReported(w: World, before: seq<Event>, events: seq<Event>, last: World)
    requires Reaches(w, events, last)
    requires (w.stopping <==> Stop in before) && (w.failed <==> GaveUp(before))
    ensures (last.stopping <==> Stop in before + events) && (last.failed <==> GaveUp(before + events))
    decreases |events|
  {
    hide Step, GaveUp;
    if events == [] {
      assert before + events == before;
    } else {
      var e := events[0];
      StopsAndFails(w, e);
      GaveUpMore(before, e);
      assert before + [e] + events[1..] == before + events;
      FailureIsReported(Step(w, e), before + [e], events[1..], last);
    }
  }

  lemma FailedOnlyUnstopped(events: seq<Event>, last: World)
    requires Reaches(START, events, last)
    ensures last.failed <==> exists k :: 0 <= k < |events| && events[k].Fail? && Stop !in events[..k]
  {
    hide Reaches;
    assert [] + events == events;
    FailureIsReported(START, [], events, last);
  }
}
