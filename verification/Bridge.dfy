/** The lifecycle of the bridge between discovery and publication. Asynchronous methods are cut at their
    awaits; what runs between two awaits is one step, and steps interleave freely. */
module Bridge {
  datatype Lifecycle = New | Starting | Running | Failed | Closing | Closed

  /** Where the one start of the bridge stands. `Failing` is a rejection that its handler has not seen yet. */
  datatype Startup =
    | NotStarted | AwaitPublisher | AwaitEngine | AwaitIdle | AwaitFirst | Failing | AwaitCleanup | Succeeded | Rejected

  datatype Engine = NoEngine | Live | Stopping | Stopped

  /** The promise of a reconciliation: none kept, kept and outstanding, or kept although already settled. */
  datatype Pending = Nothing | Outstanding | Settled

  /** Where the one closing stands. */
  datatype Closure = NotClosing | AwaitStopped | AwaitPublisherClose | ClosureDone

  datatype Mode = Mode(discover: bool, directory: bool, inspectOnly: bool)

  datatype Happening =
    | Handed | CloseCalled | WorkStarted | WorkSettled | EngineCreated | EngineClosed | PublisherClosing | CloseSettled

  datatype World = World(lifecycle: Lifecycle, startup: Startup, engine: Engine, pending: Pending, closure: Closure,
                         log: seq<Happening>)

  const START := World(New, NotStarted, NoEngine, Nothing, NotClosing, [])

  /** What can happen next; `ok` says whether the catalog loaded or the awaited promise resolved, `created`
      whether an engine can be created, and `prepared` whether a publication can be prepared. */
  datatype Event =
    | Start(ok: bool, created: bool, prepared: bool)
    | Resume(ok: bool, created: bool, prepared: bool)
    | HandleFailure
    | CleanupDone
    | Reconcile(prepared: bool)
    | WorkSettles
    | ForgetWork
    | Close
    | EngineStops
    | StoppedAll
    | PublisherCloses

  function Log(w: World, h: Happening): World { w.(log := w.log + [h]) }

  // ---------- The synchronous stretches ----------

  /** `publish` up to its first await: nothing is handed over once closing began. */
  function Publish(m: Mode, w: World, prepared: bool): World {
    if w.closure.NotClosing? && !m.inspectOnly && prepared then Log(w, Handed) else w
  }

  /** After the publisher started: the engine is created and asked to start, unless closing began. */
  function CreateEngine(m: Mode, w: World, created: bool, prepared: bool): World {
    if !w.closure.NotClosing? || (m.discover && !created) then w.(startup := Failing)
    else if m.discover then Log(w.(engine := Live, startup := AwaitEngine), EngineCreated)
    else Run(m, w, prepared)
  }

  /** After discovery settled: the bridge runs and publishes for the first time, unless closing began. */
  function Run(m: Mode, w: World, prepared: bool): World {
    if !w.closure.NotClosing? then w.(startup := Failing)
    else Publish(m, w.(lifecycle := Running, startup := AwaitFirst), prepared)
  }

  function CloseNow(w: World): World {
    if !w.closure.NotClosing? then w
    else
      Log(w.(lifecycle := Closing, engine := if w.engine.Live? then Stopping else w.engine, closure := AwaitStopped),
          CloseCalled)
  }

  predicate Possible(w: World, e: Event) {
    match e
    case Start(_, _, _) => true
    case Resume(_, _, _) => w.startup in {AwaitPublisher, AwaitEngine, AwaitIdle, AwaitFirst}
    case HandleFailure => w.startup.Failing?
    case CleanupDone => w.startup.AwaitCleanup? && w.closure.ClosureDone?
    case Reconcile(_) => true
    case WorkSettles => w.pending.Outstanding?
    case ForgetWork => w.pending.Settled?
    case Close => true
    case EngineStops => w.engine.Stopping?
    case StoppedAll => w.closure.AwaitStopped? && !w.engine.Stopping? && !w.pending.Outstanding?
    case PublisherCloses => w.closure.AwaitPublisherClose?
  }

  function Step(m: Mode, w: World, e: Event): World
    requires Possible(w, e)
  {
    match e
    case Start(ok, created, prepared) =>
      if !w.closure.NotClosing? || !w.startup.NotStarted? then w
      else if !ok then w.(lifecycle := Starting, startup := Failing)
      else if m.directory then w.(lifecycle := Starting, startup := AwaitPublisher)
      else CreateEngine(m, w.(lifecycle := Starting), created, prepared)
    case Resume(ok, created, prepared) =>
      if !ok then w.(startup := Failing)
      else (match w.startup
        case AwaitPublisher => CreateEngine(m, w, created, prepared)
        case AwaitEngine => w.(startup := AwaitIdle)
        case AwaitIdle => Run(m, w, prepared)
        case _ => w.(startup := Succeeded))
    case HandleFailure => CloseNow(w.(lifecycle := Failed, startup := AwaitCleanup))
    case CleanupDone => w.(startup := Rejected)
    case Reconcile(prepared) =>
      if !w.lifecycle.Running? || !w.pending.Nothing? then w
      else Publish(m, Log(w.(pending := Outstanding), WorkStarted), prepared)
    case WorkSettles => Log(w.(pending := Settled), WorkSettled)
    case ForgetWork => w.(pending := Nothing)
    case Close => CloseNow(w)
    case EngineStops => Log(w.(engine := Stopped), EngineClosed)
    case StoppedAll =>
      var v := w.(closure := AwaitPublisherClose);
      if m.inspectOnly then v else Log(v, PublisherClosing)
    case PublisherCloses => Log(w.(lifecycle := Closed, closure := ClosureDone), CloseSettled)
  }

  // ---------- What every run keeps ----------

  /** A reconciliation that started has not settled yet. */
  function Unsettled(log: seq<Happening>): bool {
    log != [] && (match log[|log| - 1]
      case WorkStarted => true
      case WorkSettled => false
      case _ => Unsettled(log[..|log| - 1]))
  }

  /** An engine that was created has not been closed yet. */
  function EngineOpen(log: seq<Happening>): bool {
    log != [] && (match log[|log| - 1]
      case EngineCreated => true
      case EngineClosed => false
      case _ => EngineOpen(log[..|log| - 1]))
  }

  /** Each entry of the log is allowed after the entries before it. */
  ghost predicate Allowed(m: Mode, before: seq<Happening>, h: Happening) {
    match h
    case Handed => !m.inspectOnly && CloseCalled !in before
    case CloseCalled => CloseCalled !in before
    case WorkStarted => CloseCalled !in before && !Unsettled(before)
    case WorkSettled => Unsettled(before)
    case EngineCreated => CloseCalled !in before && EngineCreated !in before
    case EngineClosed => EngineOpen(before) && CloseCalled in before
    case PublisherClosing =>
      && !m.inspectOnly && CloseCalled in before && PublisherClosing !in before
      && !Unsettled(before) && !EngineOpen(before)
    case CloseSettled =>
      && CloseCalled in before && (m.inspectOnly || PublisherClosing in before)
      && CloseSettled !in before && !EngineOpen(before) && !Unsettled(before)
  }

  ghost predicate Orderly(m: Mode, log: seq<Happening>) {
    forall i :: 0 <= i < |log| ==> Allowed(m, log[..i], log[i])
  }

  /** How the fields of the bridge follow from what happened. */
  ghost predicate Consistent(m: Mode, w: World) {
    && (w.closure.NotClosing? <==> CloseCalled !in w.log)
    && (PublisherClosing in w.log <==> !m.inspectOnly && w.closure in {AwaitPublisherClose, ClosureDone})
    && (w.closure.ClosureDone? <==> CloseSettled in w.log)
    && (w.engine.NoEngine? <==> EngineCreated !in w.log)
    && (w.engine in {Live, Stopping} <==> EngineOpen(w.log))
    && (w.pending.Outstanding? <==> Unsettled(w.log))
    && (!w.closure.NotClosing? ==> !w.engine.Live? && !w.lifecycle.Running?)
    && (w.engine in {Stopping, Stopped} ==> !w.closure.NotClosing?)
    && (w.closure in {AwaitPublisherClose, ClosureDone} ==> !w.engine.Stopping? && !w.pending.Outstanding?)
    && (w.startup in {NotStarted, AwaitPublisher} ==> w.engine.NoEngine?)
  }

  ghost predicate Inv(m: Mode, w: World) {
    Orderly(m, w.log) && Consistent(m, w)
  }

  lemma LogKeeps(m: Mode, log: seq<Happening>, h: Happening)
    requires Orderly(m, log) && Allowed(m, log, h)
    ensures Orderly(m, log + [h])
    ensures Unsettled(log + [h]) == (if h.WorkStarted? then true else if h.WorkSettled? then false else Unsettled(log))
    ensures EngineOpen(log + [h]) ==
            (if h.EngineCreated? then true else if h.EngineClosed? then false else EngineOpen(log))
    ensures forall x :: x in log + [h] <==> x in log || x == h
  {
    hide Allowed;
    var more := log + [h];
    assert more[..|log|] == log;
    forall i | 0 <= i < |more|
      ensures Allowed(m, more[..i], more[i])
    {
      assert more[..i] == if i < |log| then log[..i] else log;
    }
  }

  /** Handing over a publication is allowed wherever `Publish` does it, and changes no field. */
  lemma PublishKeeps(m: Mode, w: World, prepared: bool)
    requires Inv(m, w)
    ensures Inv(m, Publish(m, w, prepared)) && Publish(m, w, prepared) == w.(log := Publish(m, w, prepared).log)
  {
    hide Orderly, Unsettled, EngineOpen;
    if w.closure.NotClosing? && !m.inspectOnly {
      LogKeeps(m, w.log, Handed);
    }
  }

  lemma RunKeeps(m: Mode, w: World, prepared: bool)
    requires Inv(m, w)
    ensures Inv(m, Run(m, w, prepared))
  {
    hide Orderly, Unsettled, EngineOpen;
    if w.closure.NotClosing? {
      PublishKeeps(m, w.(lifecycle := Running, startup := AwaitFirst), prepared);
    }
  }

  lemma CreateKeeps(m: Mode, w: World, created: bool, prepared: bool)
    requires Inv(m, w) && w.engine.NoEngine?
    ensures Inv(m, CreateEngine(m, w, created, prepared))
  {
    hide Orderly, Unsettled, EngineOpen;
    if w.closure.NotClosing? {
      if m.discover && created {
        LogKeeps(m, w.log, EngineCreated);
      } else if !m.discover {
        RunKeeps(m, w, prepared);
      }
    }
  }

  lemma CloseKeeps(m: Mode, w: World)
    requires Inv(m, w)
    ensures Inv(m, CloseNow(w))
  {
    hide Orderly, Unsettled, EngineOpen;
    if w.closure.NotClosing? {
      LogKeeps(m, w.log, CloseCalled);
    }
  }

  lemma StartKeeps(m: Mode, w: World, ok: bool, created: bool, prepared: bool)
    requires Inv(m, w)
    ensures Inv(m, Step(m, w, Start(ok, created, prepared)))
  {
    hide Orderly, Unsettled, EngineOpen, Publish, CreateEngine, Run, CloseNow;
    if w.closure.NotClosing? && w.startup.NotStarted? && ok && !m.directory {
      CreateKeeps(m, w.(lifecycle := Starting), created, prepared);
    }
  }

  lemma ResumeKeeps(m: Mode, w: World, ok: bool, created: bool, prepared: bool)
    requires Inv(m, w) && Possible(w, Resume(ok, created, prepared))
    ensures Inv(m, Step(m, w, Resume(ok, created, prepared)))
  {
    hide Orderly, Unsettled, EngineOpen, Publish, CreateEngine, Run, CloseNow;
    if ok && w.startup.AwaitPublisher? {
      CreateKeeps(m, w, created, prepared);
    } else if ok && w.startup.AwaitIdle? {
      RunKeeps(m, w, prepared);
    }
  }

  lemma ReconcileKeeps(m: Mode, w: World, prepared: bool)
    requires Inv(m, w)
    ensures Inv(m, Step(m, w, Reconcile(prepared)))
  {
    hide Orderly, Unsettled, EngineOpen, Publish, CreateEngine, Run, CloseNow;
    if w.lifecycle.Running? && w.pending.Nothing? {
      LogKeeps(m, w.log, WorkStarted);
      PublishKeeps(m, Log(w.(pending := Outstanding), WorkStarted), prepared);
    }
  }

  /** The steps that settle a promise. */
  lemma SettlingKeeps(m: Mode, w: World, e: Event)
    requires Inv(m, w) && Possible(w, e) && (e.WorkSettles? || e.ForgetWork? || e.CleanupDone?)
    ensures Inv(m, Step(m, w, e))
  {
    hide Orderly, Unsettled, EngineOpen;
    if e.WorkSettles? {
      LogKeeps(m, w.log, WorkSettled);
    }
  }

  /** The steps of the closing and what it waits for. */
  lemma ClosingKeeps(m: Mode, w: World, e: Event)
    requires Inv(m, w) && Possible(w, e) && (e.EngineStops? || e.StoppedAll? || e.PublisherCloses?)
    ensures Inv(m, Step(m, w, e))
  {
    hide Orderly, Unsettled, EngineOpen;
    match e
    case EngineStops => LogKeeps(m, w.log, EngineClosed);
    case StoppedAll =>
      if !m.inspectOnly {
        LogKeeps(m, w.log, PublisherClosing);
      }
    case PublisherCloses => LogKeeps(m, w.log, CloseSettled);
  }

  lemma FailureKeeps(m: Mode, w: World)
    requires Inv(m, w)
    ensures Inv(m, w.(lifecycle := Failed, startup := AwaitCleanup))
  {
    hide Orderly, Unsettled, EngineOpen;
  }

  lemma StepKeeps(m: Mode, w: World, e: Event)
    requires Inv(m, w) && Possible(w, e)
    ensures Inv(m, Step(m, w, e))
  {
    hide Inv, CloseNow;
    match e
    case Start(ok, created, prepared) => StartKeeps(m, w, ok, created, prepared);
    case Resume(ok, created, prepared) => ResumeKeeps(m, w, ok, created, prepared);
    case Reconcile(prepared) => ReconcileKeeps(m, w, prepared);
    case HandleFailure =>
      FailureKeeps(m, w);
      CloseKeeps(m, w.(lifecycle := Failed, startup := AwaitCleanup));
    case Close => CloseKeeps(m, w);
    case EngineStops => ClosingKeeps(m, w, e);
    case StoppedAll => ClosingKeeps(m, w, e);
    case PublisherCloses => ClosingKeeps(m, w, e);
    case _ => SettlingKeeps(m, w, e);
  }

  // ---------- Whole runs ----------

  ghost predicate Reaches(m: Mode, w: World, events: seq<Event>, last: World)
    decreases |events|
  {
    if events == [] then last == w else Possible(w, events[0]) && Reaches(m, Step(m, w, events[0]), events[1..], last)
  }

  lemma StartHolds(m: Mode)
    ensures Inv(m, START)
  {
  }

  lemma {:induction false} RunsKeep(m: Mode, w: World, events: seq<Event>, last: World)
    requires Inv(m, w) && Reaches(m, w, events, last)
    ensures Inv(m, last)
    decreases |events|
  {
    hide Inv, Step;
    if events != [] {
      StepKeeps(m, w, events[0]);
      RunsKeep(m, Step(m, w, events[0]), events[1..], last);
    }
  }

  lemma {:induction false} UnsettledSince(log: seq<Happening>, i: nat)
    requires i < |log| && log[i].WorkStarted?
    requires forall k :: i < k < |log| ==> !log[k].WorkSettled?
    ensures Unsettled(log)
    decreases |log|
  {
    if i < |log| - 1 && !log[|log| - 1].WorkStarted? {
      UnsettledSince(log[..|log| - 1], i);
    }
  }

  lemma {:induction false} OpenSince(log: seq<Happening>, i: nat)
    requires i < |log| && log[i].EngineCreated?
    requires forall k :: i < k < |log| ==> !log[k].EngineClosed?
    ensures EngineOpen(log)
    decreases |log|
  {
    if i < |log| - 1 && !log[|log| - 1].EngineCreated? {
      OpenSince(log[..|log| - 1], i);
    }
  }

  /** In every run: nothing is handed to a publisher once closing was called, reconciliations never overlap,
      an engine is closed before the closing settles, the publisher is asked to close only when no
      reconciliation is outstanding, and a bridge that only inspects never touches a publisher. */
  lemma EveryRunIsOrderly(m: Mode, events: seq<Event>, last: World, i: nat, j: nat)
    requires Reaches(m, START, events, last) && i < j < |last.log|
    ensures last.log[i].CloseCalled? ==> !(last.log[j] in {Handed, CloseCalled, WorkStarted, EngineCreated})
    ensures last.log[i].WorkStarted? && last.log[j] in {WorkStarted, PublisherClosing, CloseSettled} ==>
              exists k :: i < k < j && last.log[k].WorkSettled?
    ensures last.log[i].EngineCreated? && last.log[j] in {PublisherClosing, CloseSettled} ==>
              exists k :: i < k < j && last.log[k].EngineClosed?
    ensures last.log[i].EngineCreated? ==> !last.log[j].EngineCreated?
    ensures m.inspectOnly ==> !(last.log[j] in {Handed, PublisherClosing})
    ensures !m.inspectOnly && last.log[j].CloseSettled? ==> exists k :: 0 <= k < j && last.log[k].PublisherClosing?
    ensures last.log[i].PublisherClosing? ==> !(last.log[j] in {WorkStarted, Handed, EngineCreated})
  {
    hide Step, Reaches, Allowed, Unsettled, EngineOpen;
    StartHolds(m);
    RunsKeep(m, START, events, last);
    var log := last.log;
    assert Allowed(m, log[..j], log[j]);
    EarlierIn(log, i, j);
    AfterClosing(m, log[..j], log[i], log[j]);
    if log[i].WorkStarted? && log[j] in {WorkStarted, PublisherClosing, CloseSettled} {
      SettledBetween(m, log, i, j);
    }
    if log[i].EngineCreated? && log[j] in {PublisherClosing, CloseSettled} {
      ClosedBetween(m, log, i, j);
    }
    if log[i].PublisherClosing? {
      assert Allowed(m, log[..i], log[i]);
      ClosingBefore(m, log, i, j);
    }
  }

  lemma EarlierIn(log: seq<Happening>, i: nat, j: nat)
    requires i < j < |log|
    ensures log[i] in log[..j] && forall h :: h in log[..j] ==> exists k :: 0 <= k < j && log[k] == h
  {
    assert log[..j][i] == log[i];
    forall h | h in log[..j]
      ensures exists k :: 0 <= k < j && log[k] == h
    {
      var k :| 0 <= k < j && log[..j][k] == h;
      assert log[k] == h;
    }
  }

  /** What one allowed entry says about an entry before it. */
  lemma AfterClosing(m: Mode, before: seq<Happening>, g: Happening, h: Happening)
    requires Allowed(m, before, h) && g in before
    ensures g.CloseCalled? ==> !(h in {Handed, CloseCalled, WorkStarted, EngineCreated})
    ensures g.EngineCreated? ==> !h.EngineCreated?
    ensures m.inspectOnly ==> !(h in {Handed, PublisherClosing})
    ensures !m.inspectOnly && h.CloseSettled? ==> PublisherClosing in before
  {
    hide Unsettled, EngineOpen;
  }

  lemma SettledBetween(m: Mode, log: seq<Happening>, i: nat, j: nat)
    requires i < j < |log| && Allowed(m, log[..j], log[j])
    requires log[i].WorkStarted? && log[j] in {WorkStarted, PublisherClosing, CloseSettled}
    ensures exists k :: i < k < j && log[k].WorkSettled?
  {
    hide EngineOpen, Unsettled;
    if !exists k :: i < k < j && log[k].WorkSettled? {
      assert forall k :: i <= k < j ==> log[..j][k] == log[k];
      UnsettledSince(log[..j], i);
    }
  }

  lemma ClosedBetween(m: Mode, log: seq<Happening>, i: nat, j: nat)
    requires i < j < |log| && Allowed(m, log[..j], log[j])
    requires log[i].EngineCreated? && log[j] in {PublisherClosing, CloseSettled}
    ensures exists k :: i < k < j && log[k].EngineClosed?
  {
    hide EngineOpen, Unsettled;
    if !exists k :: i < k < j && log[k].EngineClosed? {
      assert forall k :: i <= k < j ==> log[..j][k] == log[k];
      OpenSince(log[..j], i);
    }
  }

  lemma ClosingBefore(m: Mode, log: seq<Happening>, i: nat, j: nat)
    requires i < j < |log| && Allowed(m, log[..i], log[i]) && Allowed(m, log[..j], log[j]) && log[i].PublisherClosing?
    ensures !(log[j] in {WorkStarted, Handed, EngineCreated})
  {
    hide EngineOpen, Unsettled;
    assert CloseCalled in log[..i] && log[..i] <= log[..j];
    assert forall h :: h in log[..i] ==> h in log[..j];
  }

  // ---------- What a running bridge does ----------

  /** In every run, a reconciliation of a running bridge starts when none is kept, and hands over exactly the
      publication that could be prepared, to a publisher that is not only inspected. */
  lemma ReconcilingHandsOver(m: Mode, events: seq<Event>, last: World, prepared: bool)
    requires Reaches(m, START, events, last) && last.lifecycle.Running?
    ensures Step(m, last, Reconcile(prepared)) ==
            if !last.pending.Nothing? then last
            else
              last.(pending := Outstanding,
                    log := last.log + [WorkStarted] + if prepared && !m.inspectOnly then [Handed] else [])
  {
    hide Reaches, Orderly, Unsettled, EngineOpen;
    StartHolds(m);
    RunsKeep(m, START, events, last);
    assert last.log + [WorkStarted] + [] == last.log + [WorkStarted];
  }

  /** A start whose awaited promises resolve: the publisher's first, then the engine's and its idleness. */
  function CleanStart(m: Mode, prepared: bool): seq<Event> {
    [Start(true, true, prepared)] + (if m.directory then [Resume(true, true, prepared)] else [])
    + if m.discover then [Resume(true, true, prepared), Resume(true, true, prepared)] else []
  }

  function FirstEntries(m: Mode, prepared: bool): seq<Happening> {
    (if m.discover then [EngineCreated] else []) + if prepared && !m.inspectOnly then [Handed] else []
  }

  /** Such a start brings every bridge to the state `running`, with one engine if it discovers and one first
      publication. */
  lemma StartRuns(m: Mode, prepared: bool)
    ensures var last := World(Lifecycle.Running, AwaitFirst, if m.discover then Live else NoEngine, Nothing, NotClosing,
                              FirstEntries(m, prepared));
            Reaches(m, START, CleanStart(m, prepared), last)
  {
    hide Reaches;
    var first, second := Start(true, true, prepared), Resume(true, true, prepared);
    var events := CleanStart(m, prepared);
    var w := Step(m, START, first);
    ReachesNext(m, START, events);
    if m.directory {
      assert events[1..][0] == second;
      ReachesNext(m, w, events[1..]);
      w := Step(m, w, second);
    }
    var rest := if m.directory then events[1..][1..] else events[1..];
    if m.discover {
      assert rest == [second, second];
      ReachesNext(m, w, rest);
      ReachesNext(m, Step(m, w, second), rest[1..]);
      w := Step(m, Step(m, w, second), second);
      assert rest[1..][1..] == [];
    } else {
      assert rest == [];
    }
    ReachesEnd(m, w);
    assert w.log == FirstEntries(m, prepared);
  }

  lemma ReachesNext(m: Mode, w: World, events: seq<Event>)
    requires events != [] && Possible(w, events[0])
    ensures forall last :: Reaches(m, Step(m, w, events[0]), events[1..], last) ==> Reaches(m, w, events, last)
  {
    hide Step;
  }

  lemma ReachesEnd(m: Mode, w: World)
    ensures Reaches(m, w, [], w)
  {
  }

  /** The bridge after such a closing. */
  function ClosedFrom(m: Mode, w: World): World {
    w.(lifecycle := Closed, closure := ClosureDone, engine := if w.engine.Live? then Stopped else w.engine,
       log := w.log + [CloseCalled] + (if w.engine.Live? then [EngineClosed] else [])
       + (if m.inspectOnly then [] else [PublisherClosing]) + [CloseSettled])
  }

  function ClosingEvents(w: World): seq<Event> {
    [Close] + (if w.engine.Live? then [EngineStops] else []) + [StoppedAll, PublisherCloses]
  }

  /** A bridge that is closed while nothing is outstanding closes its engine, asks its publisher to close and settles,
      whatever it did before. */
  lemma ClosingSettles(m: Mode, events: seq<Event>, last: World)
    requires Reaches(m, START, events, last) && last.closure.NotClosing? && !last.pending.Outstanding?
    ensures Reaches(m, last, ClosingEvents(last), ClosedFrom(m, last))
  {
    hide Reaches, Orderly, Unsettled, EngineOpen;
    StartHolds(m);
    RunsKeep(m, START, events, last);
    hide Inv;
    var all := ClosingEvents(last);
    ReachesNext(m, last, all);
    var w, rest := Step(m, last, Close), all[1..];
    if last.engine.Live? {
      assert rest == [EngineStops, StoppedAll, PublisherCloses];
      ReachesNext(m, w, rest);
      w, rest := Step(m, w, EngineStops), rest[1..];
    }
    assert rest == [StoppedAll, PublisherCloses];
    ReachesNext(m, w, rest);
    w := Step(m, w, StoppedAll);
    assert rest[1..] == [PublisherCloses];
    ReachesNext(m, w, rest[1..]);
    w := Step(m, w, PublisherCloses);
    assert rest[1..][1..] == [];
    ReachesEnd(m, w);
    assert w.log == ClosedFrom(m, last).log;
  }

  // ---------- The bridge with its fields ----------

  /** The synchronous stretches of the methods; the awaited promises are resumed by `Resumed`. */
  class OnvifBridge {
    const mode: Mode
    var lifecycle: Lifecycle
    var startup: Startup
    var engine: Engine
    var pending: Pending
    var closure: Closure
    ghost var log: seq<Happening>

    ghost function State(): World
      reads this
    {
      World(lifecycle, startup, engine, pending, closure, log)
    }

    constructor (mode: Mode)
      ensures this.mode == mode && State() == START
    {
      this.mode := mode;
      lifecycle, startup, engine, pending, closure, log := New, NotStarted, NoEngine, Nothing, NotClosing, [];
    }

    method Publishing(prepared: bool)
      modifies this
      ensures State() == Publish(mode, old(State()), prepared)
    {
      if closure == NotClosing && !mode.inspectOnly && prepared {
        log := log + [Handed];
      }
    }

    method Running(prepared: bool)
      modifies this
      ensures State() == Run(mode, old(State()), prepared)
    {
      if closure != NotClosing {
        startup := Failing;
        return;
      }
      lifecycle, startup := Lifecycle.Running, AwaitFirst;
      Publishing(prepared);
    }

    method CreatingEngine(created: bool, prepared: bool)
      modifies this
      ensures State() == CreateEngine(mode, old(State()), created, prepared)
    {
      if closure != NotClosing {
        startup := Failing;
      } else if mode.discover {
        if !created {
          startup := Failing;
          return;
        }
        engine, startup := Live, AwaitEngine;
        log := log + [EngineCreated];
      } else {
        Running(prepared);
      }
    }

    method Start(ok: bool, created: bool, prepared: bool)
      modifies this
      ensures State() == Step(mode, old(State()), Event.Start(ok, created, prepared))
    {
      if closure != NotClosing || startup != NotStarted {
        return;
      }
      lifecycle := Starting;
      if !ok {
        startup := Failing;
      } else if mode.directory {
        startup := AwaitPublisher;
      } else {
        CreatingEngine(created, prepared);
      }
    }

    method Resumed(ok: bool, created: bool, prepared: bool)
      requires Possible(State(), Resume(ok, created, prepared))
      modifies this
      ensures State() == Step(mode, old(State()), Resume(ok, created, prepared))
    {
      if !ok {
        startup := Failing;
        return;
      }
      if startup == AwaitPublisher {
        CreatingEngine(created, prepared);
      } else if startup == AwaitEngine {
        startup := AwaitIdle;
      } else if startup == AwaitIdle {
        Running(prepared);
      } else {
        startup := Succeeded;
      }
    }

    method FailedStart()
      requires startup.Failing?
      modifies this
      ensures State() == Step(mode, old(State()), HandleFailure)
    {
      lifecycle, startup := Failed, AwaitCleanup;
      Close();
    }

    /** The failure handler after its closing settled. */
    method CleanedUp()
      requires Possible(State(), CleanupDone)
      modifies this
      ensures State() == Step(mode, old(State()), CleanupDone)
    {
      startup := Rejected;
    }

    method Reconcile(prepared: bool)
      modifies this
      ensures State() == Step(mode, old(State()), Event.Reconcile(prepared))
    {
      if lifecycle != Lifecycle.Running || pending != Nothing {
        return;
      }
      pending := Outstanding;
      log := log + [WorkStarted];
      Publishing(prepared);
    }

    /** The promise of a reconciliation settles, and in a later turn its handler forgets it. */
    method WorkDone()
      requires pending.Outstanding?
      modifies this
      ensures State() == Step(mode, old(State()), WorkSettles)
    {
      pending := Settled;
      log := log + [WorkSettled];
    }

    method WorkForgotten()
      requires pending.Settled?
      modifies this
      ensures State() == Step(mode, old(State()), ForgetWork)
    {
      pending := Nothing;
    }

    method Close()
      modifies this
      ensures State() == Step(mode, old(State()), Event.Close)
    {
      if closure != NotClosing {
        return;
      }
      lifecycle := Closing;
      if engine == Live {
        engine := Stopping;
      }
      closure := AwaitStopped;
      log := log + [CloseCalled];
    }

    /** The engine's own closing settles. */
    method EngineDone()
      requires engine.Stopping?
      modifies this
      ensures State() == Step(mode, old(State()), EngineStops)
    {
      engine := Stopped;
      log := log + [EngineClosed];
    }

    /** Closing after engine and reconciliation settled: the publisher is asked to close, if there is one. */
    method ClosePublisher()
      requires Possible(State(), StoppedAll)
      modifies this
      ensures State() == Step(mode, old(State()), StoppedAll)
    {
      closure := AwaitPublisherClose;
      if !mode.inspectOnly {
        log := log + [PublisherClosing];
      }
    }

    /** Closing after the publisher settled. */
    method ClosingDone()
      requires closure.AwaitPublisherClose?
      modifies this
      ensures State() == Step(mode, old(State()), PublisherCloses)
    {
      lifecycle, closure := Closed, ClosureDone;
      log := log + [CloseSettled];
    }
  }
}
