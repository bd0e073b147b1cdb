/** Reassembly of metadata documents from RTP packets with wrapping sequence numbers. */
module Metadata {
  import opened IpcFrame

  const MAX := 32768
  const DEADLINE := 2_000_000

  datatype Packet = Packet(ssrc: DWord, sequence: Word, timestamp: DWord, marker: bool)

  /** A packet with its payload, or a poll of the deadline, each with the time of the call. */
  datatype Event = Push(packet: Packet, payload: seq<Byte>, now: int) | Expire(now: int)

  datatype Code = More | Complete | Gap | Limit | Invalid

  datatype Meta = Meta(content: seq<Byte>, active: bool, discarding: bool, ssrc: DWord, firstSequence: Word,
                       lastSequence: Word, firstTimestamp: DWord, lastTimestamp: DWord, started: int)

  function Follows(sequence: Word): Word { (sequence + 1) % 0x1_0000 }

  function Abandon(m: Meta): Meta {
    m.(content := [], active := false, discarding := true)
  }

  predicate Late(m: Meta, now: int) {
    m.active && now - m.started > DEADLINE
  }

  function Expired(m: Meta, now: int): Meta {
    if Late(m, now) then Abandon(m) else m
  }

  function Begin(m: Meta, p: Packet, now: int): Meta {
    if m.active then m
    else
      m.(active := true, content := [], ssrc := p.ssrc, firstSequence := p.sequence, firstTimestamp := p.timestamp,
         started := now)
  }

  /** The packet is kept: it starts a run or continues the active one. */
  function Keep(m: Meta, p: Packet, payload: seq<Byte>, now: int, valid: seq<Byte> -> bool): (Meta, Code) {
    var started := Begin(m, p, now).(lastSequence := p.sequence, lastTimestamp := p.timestamp);
    if |payload| > MAX - |started.content| then
      (started.(content := [], active := false, discarding := !p.marker), Limit)
    else
      var grown := started.(content := started.content + payload);
      if !p.marker then (grown, More)
      else (grown.(active := false), if valid(grown.content) then Complete else Invalid)
  }

  function Drop(m: Meta, p: Packet): Meta {
    if p.marker then m.(discarding := false) else m
  }

  function PushPacket(m: Meta, p: Packet, payload: seq<Byte>, now: int, valid: seq<Byte> -> bool): (Meta, Code) {
    var error := if Late(m, now) then Limit else More;
    var m := Expired(m, now);
    if m.active && m.ssrc == p.ssrc && m.lastSequence == p.sequence then (m, More)
    else if m.active && (m.ssrc != p.ssrc || Follows(m.lastSequence) != p.sequence) then (Drop(Abandon(m), p), Gap)
    else if m.discarding then (Drop(m, p), error)
    else Keep(m, p, payload, now, valid)
  }

  class Reassembler {
    const bytes: array<Byte>
    var length: nat
    var active: bool
    var discarding: bool
    var ssrc: DWord
    var firstSequence: Word
    var lastSequence: Word
    var firstTimestamp: DWord
    var lastTimestamp: DWord
    var started: int

    ghost predicate Valid()
      reads this
    {
      bytes.Length == MAX && length <= MAX
    }

    ghost function State(): Meta
      requires Valid()
      reads this, bytes
    {
      Meta(bytes[..length], active, discarding, ssrc, firstSequence, lastSequence, firstTimestamp, lastTimestamp,
           started)
    }

    constructor ()
      ensures Valid() && State() == IDLE && fresh(bytes)
    {
      bytes := new Byte[MAX](_ => 0);
      length, active, discarding, ssrc, started := 0, false, false, 0, 0;
      firstSequence, lastSequence, firstTimestamp, lastTimestamp := 0, 0, 0, 0;
    }

    method ExpireAt(now: int) returns (late: bool)
      requires Valid()
      modifies this
      ensures Valid() && late == Late(old(State()), now) && State() == Expired(old(State()), now)
    {
      if active && now - started > DEADLINE {
        active, discarding, length := false, true, 0;
        return true;
      }
      return false;
    }

    method Append(payload: seq<Byte>)
      requires Valid() && length + |payload| <= MAX
      modifies this, bytes
      ensures Valid() && State() == old(State()).(content := old(State()).content + payload)
    {
      forall k | 0 <= k < |payload| {
        bytes[length + k] := payload[k];
      }
      length := length + |payload|;
      assert bytes[..length] == old(bytes[..length]) + payload;
    }

    method Receive(p: Packet, payload: seq<Byte>, now: int, valid: seq<Byte> -> bool) returns (code: Code)
      requires Valid()
      modifies this, bytes
      ensures Valid() && (State(), code) == PushPacket(old(State()), p, payload, now, valid)
    {
      hide Late, Expired, Keep;
      code := More;
      var late := ExpireAt(now);
      if late {
        code := Limit;
      }
      if active {
        if ssrc == p.ssrc && lastSequence == p.sequence {
          return More;
        }
        if ssrc != p.ssrc || (lastSequence + 1) % 0x1_0000 != p.sequence {
          active, discarding, length := false, true, 0;
          code := Gap;
        }
      }
      if discarding {
        if p.marker {
          discarding := false;
        }
        return;
      }
      code := Store(p, payload, now, valid);
    }

    /** The rest of `push`, for a packet that is kept. */
    method Store(p: Packet, payload: seq<Byte>, now: int, valid: seq<Byte> -> bool) returns (code: Code)
      requires Valid()
      modifies this, bytes
      ensures Valid() && (State(), code) == Keep(old(State()), p, payload, now, valid)
    {
      if !active {
        active, length, ssrc, started := true, 0, p.ssrc, now;
        firstSequence, firstTimestamp := p.sequence, p.timestamp;
      }
      assert State() == Begin(old(State()), p, now);
      lastSequence, lastTimestamp := p.sequence, p.timestamp;
      if |payload| > MAX - length {
        active, discarding, length := false, !p.marker, 0;
        return Limit;
      }
      Append(payload);
      if !p.marker {
        return More;
      }
      active := false;
      return if valid(bytes[..length]) then Complete else Invalid;
    }
  }

  const IDLE := Meta([], false, false, 0, 0, 0, 0, 0, 0)

  // ---------- What a document is ----------

  function Count(kept: seq<bool>): nat {
    if kept == [] then 0 else Count(kept[..|kept| - 1]) + if kept[|kept| - 1] then 1 else 0
  }

  /** The payloads of the kept events, in order. */
  function Payloads(events: seq<Event>, kept: seq<bool>): seq<Byte>
    requires |kept| == |events|
  {
    if events == [] then []
    else
      var n := |events| - 1;
      Payloads(events[..n], kept[..n]) + if kept[n] && events[n].Push? then events[n].payload else []
  }

  /** The `k`-th event of a run is a poll, the next packet of its stream, or the last kept one again. */
  predicate InRun(events: seq<Event>, kept: seq<bool>, k: nat)
    requires |kept| == |events| && k < |events| && events[0].Push?
  {
    && events[k].now - events[0].now <= 2_000_000
    && (events[k].Push? ==>
          && events[k].packet.ssrc == events[0].packet.ssrc
          && events[k].packet.sequence ==
              (events[0].packet.sequence + Count(kept[..k]) - if kept[k] then 0 else 1) % 0x1_0000)
    && (kept[k] ==> events[k].Push?)
  }

  /** A run: packets of one source whose kept ones are numbered consecutively, inside the deadline and the size. */
  ghost predicate Run(events: seq<Event>, kept: seq<bool>) {
    && |kept| == |events| > 0 && kept[0] && events[0].Push?
    && (forall k: nat :: k < |events| ==> InRun(events, kept, k))
    && |Payloads(events, kept)| <= 32768
  }

  /** No kept packet before `n` carries the marker. */
  predicate Open(events: seq<Event>, kept: seq<bool>, n: nat)
    requires |kept| == |events|
  {
    forall k :: 0 <= k < n && k < |events| && kept[k] && events[k].Push? ==> !events[k].packet.marker
  }

  /** A document: a run whose last event is kept and is the only kept one with the marker. */
  ghost predicate Document(events: seq<Event>, kept: seq<bool>) {
    && Run(events, kept)
    && Open(events, kept, |events| - 1)
    && kept[|events| - 1] && events[|events| - 1].Push? && events[|events| - 1].packet.marker
  }

  function LastKept(events: seq<Event>, kept: seq<bool>): Packet
    requires |kept| == |events| > 0 && kept[0] && events[0].Push?
  {
    var n := |events| - 1;
    if n == 0 || (kept[n] && events[n].Push?) then if events[n].Push? then events[n].packet else events[0].packet
    else LastKept(events[..n], kept[..n])
  }

  /** The buffer and the fields describe the run. */
  ghost predicate Holds(m: Meta, events: seq<Event>, kept: seq<bool>) {
    && Run(events, kept)
    && m.content == Payloads(events, kept) && !m.discarding
    && m.ssrc == events[0].packet.ssrc && m.started == events[0].now
    && m.firstSequence == events[0].packet.sequence && m.firstTimestamp == events[0].packet.timestamp
    && m.lastSequence == LastKept(events, kept).sequence && m.lastTimestamp == LastKept(events, kept).timestamp
  }

  ghost predicate Collecting(m: Meta, events: seq<Event>, kept: seq<bool>) {
    m.active && Holds(m, events, kept) && Open(events, kept, |events|)
  }

  // ---------- One more event ----------

  lemma {:induction false} LastNumber(events: seq<Event>, kept: seq<bool>)
    requires Run(events, kept)
    ensures Count(kept) >= 1
    ensures LastKept(events, kept).sequence == (events[0].packet.sequence + Count(kept) - 1) % 0x1_0000
    decreases |events|
  {
    var n := |events| - 1;
    assert InRun(events, kept, n);
    if n == 0 {
      assert kept[..0] == [];
    } else {
      RunShorter(events, kept, n);
      LastNumber(events[..n], kept[..n]);
    }
  }

  lemma RunShorter(events: seq<Event>, kept: seq<bool>, n: nat)
    requires Run(events, kept) && 1 <= n <= |events|
    ensures Run(events[..n], kept[..n])
  {
    forall k: nat | k < n
      ensures InRun(events[..n], kept[..n], k)
    {
      assert InRun(events, kept, k);
      assert kept[..n][..k] == kept[..k];
    }
    PayloadsGrow(events, kept, n);
  }

  lemma {:induction false} PayloadsGrow(events: seq<Event>, kept: seq<bool>, n: nat)
    requires |kept| == |events| && n <= |events|
    ensures |Payloads(events[..n], kept[..n])| <= |Payloads(events, kept)|
    decreases |events|
  {
    if n < |events| {
      var last := |events| - 1;
      assert events[..last][..n] == events[..n] && kept[..last][..n] == kept[..n];
      PayloadsGrow(events[..last], kept[..last], n);
    } else {
      assert events[..n] == events && kept[..n] == kept;
    }
  }

  /** The next event belongs to the run, kept or not. */
  predicate Next(m: Meta, e: Event, keep: bool) {
    && e.now - m.started <= DEADLINE
    && (e.Push? ==>
        e.packet.ssrc == m.ssrc && e.packet.sequence == if keep then Follows(m.lastSequence) else m.lastSequence)
    && (keep ==> e.Push? && |m.content| + |e.payload| <= MAX)
  }

  lemma EarlierInRun(events: seq<Event>, kept: seq<bool>, e: Event, keep: bool, k: nat)
    requires |kept| == |events| && k < |events| && events[0].Push?
    ensures InRun(events + [e], kept + [keep], k) <==> InRun(events, kept, k)
  {
    hide Count;
    assert (kept + [keep])[..k] == kept[..k];
  }

  lemma LastInRun(m: Meta, events: seq<Event>, kept: seq<bool>, e: Event, keep: bool)
    requires Holds(m, events, kept)
    ensures |kept| == |events| && events[0].Push? && (events + [e])[0] == events[0]
    ensures InRun(events + [e], kept + [keep], |events|) <==>
            && e.now - m.started <= DEADLINE && (keep ==> e.Push?)
            && (e.Push? ==>
                e.packet.ssrc == m.ssrc
                && e.packet.sequence == if keep then Follows(m.lastSequence) else m.lastSequence)
  {
    hide Payloads, LastKept, Count;
    LastNumber(events, kept);
    assert (kept + [keep])[..|events|] == kept;
  }

  lemma PayloadsExtend(events: seq<Event>, kept: seq<bool>, e: Event, keep: bool)
    requires |kept| == |events|
    ensures Payloads(events + [e], kept + [keep]) == Payloads(events, kept) + if keep && e.Push? then e.payload else []
  {
    assert (events + [e])[..|events|] == events && (kept + [keep])[..|events|] == kept;
  }

  lemma RunExtends(m: Meta, events: seq<Event>, kept: seq<bool>, e: Event, keep: bool)
    requires Holds(m, events, kept)
    ensures Run(events + [e], kept + [keep]) <==> Next(m, e, keep)
  {
    hide InRun, Payloads, LastKept, Follows;
    LastInRun(m, events, kept, e, keep);
    PayloadsExtend(events, kept, e, keep);
    forall k: nat | k < |events|
      ensures InRun(events + [e], kept + [keep], k)
    {
      EarlierInRun(events, kept, e, keep, k);
      assert InRun(events, kept, k);
    }
  }

  function Extended(m: Meta, e: Event, keep: bool): Meta
    requires keep ==> e.Push?
  {
    if keep then
      m.(content := m.content + e.payload, lastSequence := e.packet.sequence, lastTimestamp := e.packet.timestamp)
    else m
  }

  lemma HoldsExtends(m: Meta, events: seq<Event>, kept: seq<bool>, e: Event, keep: bool)
    requires Holds(m, events, kept) && Next(m, e, keep)
    ensures |kept| == |events|
    ensures Holds(Extended(m, e, keep), events + [e], kept + [keep])
    ensures Open(events, kept, |events|) ==> Open(events + [e], kept + [keep], |events|)
    ensures Open(events, kept, |events|) && !(keep && Marked(e)) ==> Open(events + [e], kept + [keep], |events| + 1)
  {
    RunExtends(m, events, kept, e, keep);
    var longer, marks, n := events + [e], kept + [keep], |events|;
    assert longer[..n] == events && marks[..n] == kept;
  }

  function Advance(m: Meta, e: Event, valid: seq<Byte> -> bool): (Meta, Code) {
    match e
    case Push(p, payload, now) => PushPacket(m, p, payload, now, valid)
    case Expire(now) => (Expired(m, now), if Late(m, now) then Limit else More)
  }

  predicate Finished(code: Code) { code.Complete? || code.Invalid? }

  predicate Marked(e: Event) { e.Push? && e.packet.marker }

  /** While a run is collected: an event that continues it is kept, a repetition changes nothing, and any
      other event abandons the run: a foreign or a wrongly numbered packet in time as a gap, and a late event or too
      many bytes as a limit. */
  lemma CollectingStep(m: Meta, events: seq<Event>, kept: seq<bool>, e: Event, valid: seq<Byte> -> bool)
    requires Collecting(m, events, kept)
    ensures var (v, code) := Advance(m, e, valid);
            if Next(m, e, true) then
              if Marked(e) then
                && Document(events + [e], kept + [true]) && Holds(v, events + [e], kept + [true])
                && !v.active && !v.discarding && code == if valid(v.content) then Complete else Invalid
              else Collecting(v, events + [e], kept + [true]) && code == More
            else if Next(m, e, false) then v == m && Collecting(v, events + [e], kept + [false]) && code == More
            else
              && !v.active && v.discarding == !Marked(e) && v.content == []
              && code == if e.now - m.started <= 2_000_000
                            && (e.packet.ssrc != m.ssrc || e.packet.sequence != (m.lastSequence + 1) % 65536)
                         then Gap else Limit
  {
    hide Run, Document, LastKept, Payloads, InRun;
    if Next(m, e, true) {
      HoldsExtends(m, events, kept, e, true);
      DocumentEnds(events, kept, e);
    } else if Next(m, e, false) {
      HoldsExtends(m, events, kept, e, false);
    }
  }

  lemma DocumentEnds(events: seq<Event>, kept: seq<bool>, e: Event)
    requires |kept| == |events|
    ensures Run(events + [e], kept + [true]) && Open(events + [e], kept + [true], |events|) && Marked(e) ==>
              Document(events + [e], kept + [true])
  {
  }

  /** With no run, a packet that fits starts one. */
  lemma IdleStep(m: Meta, e: Event, valid: seq<Byte> -> bool)
    requires !m.active && !m.discarding
    ensures var (v, code) := Advance(m, e, valid);
            if e.Expire? then v == m && code == More
            else if |e.payload| > MAX then
              !v.active && v.discarding == !Marked(e) && v.content == [] && code == Limit && !Run([e], [true])
            else if Marked(e) then
              && Document([e], [true]) && Holds(v, [e], [true]) && !v.active
              && code == if valid(v.content) then Complete else Invalid
            else Collecting(v, [e], [true]) && code == More
  {
    if e.Push? {
      assert [e][..0] == [] && [true][..0] == [];
      assert Payloads([e], [true]) == [] + e.payload == e.payload;
      assert LastKept([e], [true]) == e.packet;
      assert InRun([e], [true], 0) by { assert Count([]) == 0; }
      assert |e.payload| <= MAX ==> Run([e], [true]);
    }
  }

  /** While discarding, nothing is kept and only a marker ends it. */
  lemma DiscardStep(m: Meta, e: Event, valid: seq<Byte> -> bool)
    requires !m.active && m.discarding
    ensures Advance(m, e, valid) == (m.(discarding := !Marked(e)), More)
  {
  }

  // ---------- Whole histories ----------

  function After(history: seq<Event>, valid: seq<Byte> -> bool): Meta {
    if history == [] then IDLE
    else Advance(After(history[..|history| - 1], valid), history[|history| - 1], valid).0
  }

  /** No packet yet, or the last one carried the marker. */
  predicate Boundary(history: seq<Event>) {
    history == []
    || (var e := history[|history| - 1]; if e.Push? then e.packet.marker else Boundary(history[..|history| - 1]))
  }

  /** Event `e` cannot belong to the run, in either way; an empty run is broken by a first packet that does not fit. */
  ghost predicate Breaks(events: seq<Event>, kept: seq<bool>, e: Event) {
    && |kept| == |events|
    && (if events == [] then e.Push? else Run(events, kept) && Open(events, kept, |events|))
    && (forall keep: bool :: !Run(events + [e], kept + [keep]))
  }

  predicate Unmarked(events: seq<Event>) {
    forall k :: 0 <= k < |events| ==> !Marked(events[k])
  }

  /** The events since `start`, right after a marker, form the collected run. */
  ghost predicate CollectedSince(m: Meta, history: seq<Event>, start: nat, kept: seq<bool>) {
    start < |history| && Boundary(history[..start]) && Collecting(m, history[start..], kept)
  }

  /** Event `b` broke the run that began at `start`, and no marker came since. */
  ghost predicate BrokenAt(history: seq<Event>, start: nat, kept: seq<bool>, b: nat) {
    && start <= b < |history| && Boundary(history[..start])
    && Breaks(history[start..b], kept, history[b]) && Unmarked(history[b..])
  }

  /** Exactly one of three situations, each fixed by the history. */
  ghost predicate Inv(m: Meta, history: seq<Event>) {
    if m.active then !m.discarding && exists start: nat, kept :: CollectedSince(m, history, start, kept)
    else if m.discarding then exists start: nat, kept, b: nat :: BrokenAt(history, start, kept, b)
    else Boundary(history)
  }

  lemma Snoc(history: seq<Event>, start: nat, e: Event)
    requires start <= |history|
    ensures (history + [e])[start..] == history[start..] + [e] && (history + [e])[..start] == history[..start]
    ensures (history + [e])[|history|] == e && (history + [e])[..|history|] == history
  {
  }

  lemma BoundarySnoc(history: seq<Event>, e: Event)
    ensures Boundary(history + [e]) == if e.Push? then Marked(e) else Boundary(history)
  {
    Snoc(history, 0, e);
  }

  /** A break keeps the history accounted for, whether or not the breaking packet carries the marker. */
  lemma BreakKeeps(v: Meta, history: seq<Event>, start: nat, kept: seq<bool>, e: Event)
    requires start <= |history| && Boundary(history[..start]) && Breaks(history[start..], kept, e)
    requires !v.active && v.discarding == !Marked(e)
    ensures Inv(v, history + [e])
  {
    hide Breaks, Boundary;
    var longer := history + [e];
    Snoc(history, start, e);
    BoundarySnoc(history, e);
    if v.discarding {
      assert longer[start..|history|] == history[start..];
      assert longer[|history|..] == [e];
      assert BrokenAt(longer, start, kept, |history|);
    }
  }

  lemma CollectedKeeps(m: Meta, history: seq<Event>, start: nat, kept: seq<bool>, e: Event, valid: seq<Byte> -> bool)
    requires CollectedSince(m, history, start, kept)
    ensures Inv(Advance(m, e, valid).0, history + [e])
  {
    hide Collecting, Next, Advance, Boundary, Breaks, Document, Holds;
    var (v, _) := Advance(m, e, valid);
    var longer, seen := history + [e], history[start..];
    Snoc(history, start, e);
    BoundarySnoc(history, e);
    CollectingStep(m, seen, kept, e, valid);
    if Next(m, e, true) {
      if Marked(e) {
      } else {
        CollectingActive(v, seen + [e], kept + [true]);
        assert CollectedSince(v, longer, start, kept + [true]);
      }
    } else if Next(m, e, false) {
      CollectingActive(v, seen + [e], kept + [false]);
      assert CollectedSince(v, longer, start, kept + [false]);
    } else {
      NoWay(m, seen, kept, e);
      BreakKeeps(v, history, start, kept, e);
    }
  }

  lemma CollectingActive(m: Meta, events: seq<Event>, kept: seq<bool>)
    requires Collecting(m, events, kept)
    ensures m.active && !m.discarding
  {
  }

  lemma NoWay(m: Meta, events: seq<Event>, kept: seq<bool>, e: Event)
    requires Collecting(m, events, kept) && !Next(m, e, true) && !Next(m, e, false)
    ensures Breaks(events, kept, e)
  {
    hide Next;
    RunExtends(m, events, kept, e, true);
    RunExtends(m, events, kept, e, false);
  }

  lemma IdleKeeps(m: Meta, history: seq<Event>, e: Event, valid: seq<Byte> -> bool)
    requires !m.active && !m.discarding && Boundary(history)
    ensures Inv(Advance(m, e, valid).0, history + [e])
  {
    hide Collecting, Advance, Boundary, Document, Holds;
    var (v, _) := Advance(m, e, valid);
    var longer, n := history + [e], |history|;
    Snoc(history, n, e);
    BoundarySnoc(history, e);
    IdleStep(m, e, valid);
    assert history[n..] == [] && history[..n] == history;
    if e.Push? && |e.payload| > MAX {
      assert [] + [e] == [e];
      assert !Run([e], [false]);
      forall keep: bool
        ensures !Run([] + [e], [] + [keep])
      {
        assert [] + [keep] == [keep];
      }
      assert Breaks([], [], e);
      BreakKeeps(v, history, n, [], e);
    } else if e.Push? && !Marked(e) {
      CollectingActive(v, [e], [true]);
      assert CollectedSince(v, longer, n, [true]) by { assert longer[n..] == [e]; }
    }
  }

  lemma DiscardKeeps(m: Meta, history: seq<Event>, start: nat, kept: seq<bool>, b: nat, e: Event,
                     valid: seq<Byte> -> bool)
    requires !m.active && m.discarding && BrokenAt(history, start, kept, b)
    ensures Inv(Advance(m, e, valid).0, history + [e])
  {
    hide Advance, Boundary, Breaks;
    DiscardStep(m, e, valid);
    BoundarySnoc(history, e);
    Snoc(history, start, e);
    Snoc(history, b, e);
    if !Marked(e) {
      var longer := history + [e];
      assert longer[start..b] == history[start..b];
      assert BrokenAt(longer, start, kept, b);
    }
  }

  lemma StepKeeps(m: Meta, history: seq<Event>, e: Event, valid: seq<Byte> -> bool)
    requires Inv(m, history)
    ensures Inv(Advance(m, e, valid).0, history + [e])
  {
    hide Advance, Boundary, CollectedSince, BrokenAt;
    if m.active {
      var start: nat, kept :| CollectedSince(m, history, start, kept);
      CollectedKeeps(m, history, start, kept, e, valid);
    } else if m.discarding {
      var start: nat, kept, b: nat :| BrokenAt(history, start, kept, b);
      DiscardKeeps(m, history, start, kept, b, e, valid);
    } else {
      IdleKeeps(m, history, e, valid);
    }
  }

  /** After any history the assembler is in exactly one of three situations: right after a marker, collecting
      a run that began right after one, or discarding since an event broke such a run with no marker since. */
  lemma {:induction false} EveryHistory(history: seq<Event>, valid: seq<Byte> -> bool)
    ensures Inv(After(history, valid), history)
    decreases |history|
  {
    if history != [] {
      hide Inv, Advance;
      var n := |history| - 1;
      EveryHistory(history[..n], valid);
      StepKeeps(After(history[..n], valid), history[..n], history[n], valid);
      assert history[..n] + [history[n]] == history;
    }
  }

  /** A finished document is the run of a document that began right after a marker; the fields describe it. */
  lemma FinishedIsDocument(history: seq<Event>, e: Event, valid: seq<Byte> -> bool)
    requires Finished(Advance(After(history, valid), e, valid).1)
    ensures var (m, code) := Advance(After(history, valid), e, valid);
            && (code.Complete? <==> valid(m.content))
            && exists start: nat, kept :: DocumentSince(m, history + [e], start, kept)
  {
    hide Advance, Boundary, Collecting, Document, Holds;
    var before := After(history, valid);
    EveryHistory(history, valid);
    var (m, code) := Advance(before, e, valid);
    if before.active {
      var start: nat, kept :| CollectedSince(before, history, start, kept);
      Snoc(history, start, e);
      CollectingStep(before, history[start..], kept, e, valid);
      assert DocumentSince(m, history + [e], start, kept + [true]);
    } else if before.discarding {
      DiscardStep(before, e, valid);
    } else {
      IdleStep(before, e, valid);
      Snoc(history, |history|, e);
      assert (history + [e])[|history|..] == [e];
      assert DocumentSince(m, history + [e], |history|, [true]);
    }
  }

  ghost predicate DocumentSince(m: Meta, history: seq<Event>, start: nat, kept: seq<bool>) {
    && start < |history| && Boundary(history[..start])
    && Document(history[start..], kept) && Holds(m, history[start..], kept) && !m.active
  }

  function Feed(m: Meta, events: seq<Event>, valid: seq<Byte> -> bool): Meta {
    if events == [] then m else Advance(Feed(m, events[..|events| - 1], valid), events[|events| - 1], valid).0
  }

  /** Up to its last event a document is a run without a marker. */
  lemma DocumentPrefix(events: seq<Event>, kept: seq<bool>, n: nat)
    requires Document(events, kept) && 1 <= n < |events|
    ensures |kept| == |events| && kept[0] && events[0].Push?
    ensures events[..n] == events[..n - 1] + [events[n - 1]] && kept[..n] == kept[..n - 1] + [kept[n - 1]]
    ensures Run(events[..n], kept[..n]) && (kept[n - 1] ==> !Marked(events[n - 1]))
  {
    hide InRun, Payloads;
    RunShorter(events, kept, n);
  }

  lemma {:induction false} DocumentCollects(m: Meta, events: seq<Event>, kept: seq<bool>, n: nat,
                                            valid: seq<Byte> -> bool)
    requires !m.active && !m.discarding && Document(events, kept) && 1 <= n < |events|
    ensures |kept| == |events| && Collecting(Feed(m, events[..n], valid), events[..n], kept[..n])
    decreases n
  {
    hide Run, Advance, Holds, Document, Collecting, Next, Marked, Feed, Open;
    DocumentPrefix(events, kept, n);
    FeedOn(m, events, n, valid);
    var so, e := events[..n - 1], events[n - 1];
    if n == 1 {
      assert so == [] && events[..n] == [e] && kept[..n] == [true];
      IdleStep(m, e, valid);
      FirstFits(e);
    } else {
      DocumentCollects(m, events, kept, n - 1, valid);
      CollectingOn(Feed(m, so, valid), so, kept[..n - 1], e, kept[n - 1], valid);
    }
  }

  lemma FeedOn(m: Meta, events: seq<Event>, n: nat, valid: seq<Byte> -> bool)
    requires 1 <= n <= |events|
    ensures Feed(m, [], valid) == m
    ensures Feed(m, events[..n], valid) == Advance(Feed(m, events[..n - 1], valid), events[n - 1], valid).0
  {
    hide Advance;
    assert events[..n][..n - 1] == events[..n - 1];
  }

  lemma CollectingOn(m: Meta, events: seq<Event>, kept: seq<bool>, e: Event, keep: bool, valid: seq<Byte> -> bool)
    requires Collecting(m, events, kept) && Run(events + [e], kept + [keep]) && (keep ==> !Marked(e))
    ensures Collecting(Advance(m, e, valid).0, events + [e], kept + [keep])
  {
    hide Run, Advance, Holds, Document, Next, Marked, Open;
    RunExtends(m, events, kept, e, keep);
    NextOnce(m, e);
    CollectingStep(m, events, kept, e, valid);
  }

  lemma RunSized(events: seq<Event>, kept: seq<bool>)
    requires Run(events, kept)
    ensures |kept| == |events| > 0 && kept[0] && events[0].Push?
  {
  }

  lemma FirstFits(e: Event)
    requires Run([e], [true])
    ensures e.Push? && |e.payload| <= MAX
  {
    assert Payloads([e], [true]) == [] + e.payload;
  }

  /** No packet can both continue a run and repeat its last one. */
  lemma NextOnce(m: Meta, e: Event)
    ensures e.Push? ==> !(Next(m, e, true) && Next(m, e, false))
    ensures e.Expire? ==> !Next(m, e, true)
  {
  }

  /** Conversely, feeding a document to an idle assembler finishes it, with exactly its payloads. */
  lemma DocumentFinishes(m: Meta, events: seq<Event>, kept: seq<bool>, valid: seq<Byte> -> bool)
    requires !m.active && !m.discarding && Document(events, kept)
    ensures var n := |events| - 1;
            var (v, code) := Advance(Feed(m, events[..n], valid), events[n], valid);
            && Finished(code) && v.content == Payloads(events, kept)
            && (code.Complete? <==> valid(Payloads(events, kept)))
  {
    hide Run, Advance, LastKept, Payloads;
    var n := |events| - 1;
    RunSized(events, kept);
    var so, e := events[..n], events[n];
    assert events == so + [e] && kept == kept[..n] + [true];
    if n == 0 {
      assert so == [] && Feed(m, so, valid) == m && events == [e] && kept == [true];
      IdleStep(m, e, valid);
      FirstFits(e);
    } else {
      DocumentCollects(m, events, kept, n, valid);
      var before := Feed(m, so, valid);
      RunExtends(before, so, kept[..n], e, true);
      CollectingStep(before, so, kept[..n], e, valid);
    }
  }
}
