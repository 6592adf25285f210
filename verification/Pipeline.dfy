/**
 Ingest, workers and writer joined by two bounded channels, and the shutdown that
 drains them.  Events are numbered in the order in which they were accepted.

 A drain that takes too long is forced: evaluation is cancelled, which ends rules early
 but passes their events on, and the writer may then give up on the results still to come.
 */
module Pipeline {
  import opened Occurrences
  import ResultWriter

  datatype Http = Serving | Stopping | Stopped

  datatype Worker = Idle | Busy(event: nat) | Exited

  datatype State = State(
    http: Http, handlers: nat, clean: bool,
    events: seq<nat>, eventsClosed: bool, workers: seq<Worker>,
    results: seq<nat>, resultsClosed: bool,
    batch: seq<nat>, flushed: seq<nat>, skipped: seq<nat>, finished: bool,
    accepted: nat, panicked: bool,
    forced: bool, gaveUp: bool)

  /** Channel capacities; an unbuffered hand-over would need other steps. */
  datatype Limits = Limits(events: nat, results: nat)

  datatype Action =
    | Arrive | Depart | Enqueue                       // HTTP handlers
    | BeginShutdown | ShutdownReturns(clean: bool) | CloseEvents
    | Take(worker: nat) | Put(worker: nat) | Exit(worker: nat) | CloseResults
    | Receive(keep: bool) | Tick | Finish             // the writer
    | ForceCancel | GiveUp                            // the drain takes too long

  ghost predicate Init(s: State) {
    && s.http == Serving && s.handlers == 0 && s.clean && s.workers != []
    && s.events == [] && !s.eventsClosed && s.results == [] && !s.resultsClosed
    && s.batch == [] && s.flushed == [] && s.skipped == [] && !s.finished
    && s.accepted == 0 && !s.panicked && !s.forced && !s.gaveUp
    && forall w | 0 <= w < |s.workers| :: s.workers[w] == Idle
  }

  predicate Enabled(l: Limits, s: State, a: Action) {
    && !s.panicked
    && match a
       case Arrive => s.http.Serving?
       case Depart => s.handlers > 0
       case Enqueue => s.handlers > 0 && (s.eventsClosed || |s.events| < l.events)
       case BeginShutdown => s.http.Serving?
       case ShutdownReturns(clean) => s.http.Stopping? && (clean ==> s.handlers == 0)
       case CloseEvents => s.http.Stopped? && !s.eventsClosed
       case Take(w) => w < |s.workers| && s.workers[w].Idle? && s.events != []
       case Put(w) => w < |s.workers| && s.workers[w].Busy? && (s.resultsClosed || |s.results| < l.results)
       case Exit(w) => w < |s.workers| && s.workers[w].Idle? && s.events == [] && s.eventsClosed
       case CloseResults => !s.resultsClosed && forall w | 0 <= w < |s.workers| :: s.workers[w].Exited?
       case Receive(_) => !s.finished && s.results != []
       case Tick => !s.finished && s.batch != []
       case Finish => !s.finished && s.results == [] && s.resultsClosed
       case ForceCancel => s.eventsClosed && !s.forced
       case GiveUp => s.forced && !s.finished
  }

  function Apply(l: Limits, s: State, a: Action): State
    requires Enabled(l, s, a)
  {
    match a
    case Arrive => s.(handlers := s.handlers + 1)
    case Depart => s.(handlers := s.handlers - 1)
    case Enqueue =>
      if s.eventsClosed then s.(panicked := true)   // send on closed channel
      else s.(events := s.events + [s.accepted], accepted := s.accepted + 1)
    case BeginShutdown => s.(http := Stopping)
    case ShutdownReturns(clean) => s.(http := Stopped, clean := clean)
    case CloseEvents => s.(eventsClosed := true)
    case Take(w) => s.(workers := s.workers[w := Busy(s.events[0])], events := s.events[1..])
    case Put(w) =>
      if s.resultsClosed then s.(panicked := true)
      else s.(workers := s.workers[w := Idle], results := s.results + [s.workers[w].event])
    case Exit(w) => s.(workers := s.workers[w := Exited])
    case CloseResults => s.(resultsClosed := true)
    case Receive(keep) =>
      var r, rest := s.results[0], s.results[1..];
      if !keep then s.(results := rest, skipped := s.skipped + [r])
      else if |s.batch| + 1 >= ResultWriter.BATCH_SIZE then
        s.(results := rest, flushed := s.flushed + (s.batch + [r]), batch := [])
      else s.(results := rest, batch := s.batch + [r])
    case Tick => s.(flushed := s.flushed + s.batch, batch := [])
    case Finish => s.(flushed := s.flushed + s.batch, batch := [], finished := true)
    case ForceCancel => s.(forced := true)
    case GiveUp => s.(flushed := s.flushed + s.batch, batch := [], finished := true, gaveUp := true)
  }

  ghost predicate Next(l: Limits, s: State, s': State) {
    exists a :: Enabled(l, s, a) && s' == Apply(l, s, a)
  }

  /** A stretch of a run. */
  ghost predicate Steps(l: Limits, run: seq<State>) {
    |run| > 0 && forall k | 0 <= k < |run| - 1 :: Next(l, run[k], run[k + 1])
  }

  ghost predicate Run(l: Limits, run: seq<State>) { Steps(l, run) && Init(run[0]) }

  // ---- conservation ----

  function Held(workers: seq<Worker>, id: nat): nat {
    if workers == [] then 0
    else Held(workers[..|workers| - 1], id) + if workers[|workers| - 1] == Busy(id) then 1 else 0
  }

  lemma {:induction false} HeldUpdate(workers: seq<Worker>, w: nat, x: Worker, id: nat)
    requires w < |workers|
    ensures Held(workers[w := x], id) ==
            Held(workers, id) - (if workers[w] == Busy(id) then 1 else 0) + (if x == Busy(id) then 1 else 0)
  {
    var n, updated := |workers| - 1, workers[w := x];
    if w == n {
      assert updated[..n] == workers[..n];
    } else {
      assert updated[..n] == workers[..n][w := x];
      HeldUpdate(workers[..n], w, x, id);
    }
  }

  /** In how many places event `id` is. */
  function Places(s: State, id: nat): nat {
    Occ(s.events, id) + Held(s.workers, id) + Occ(s.results, id) + Occ(s.batch, id)
    + Occ(s.flushed, id) + Occ(s.skipped, id)
  }

  ghost predicate Conserved(s: State) {
    forall id: nat :: Places(s, id) == if id < s.accepted then 1 else 0
  }

  lemma SkipConserves(l: Limits, s: State, id: nat)
    requires Enabled(l, s, Receive(false))
    ensures Places(Apply(l, s, Receive(false)), id) == Places(s, id)
  {
    OccTail(s.results, id);
    OccSnoc(s.skipped, s.results[0], id);
  }

  lemma KeepConserves(l: Limits, s: State, id: nat)
    requires Enabled(l, s, Receive(true)) && |s.batch| + 1 < ResultWriter.BATCH_SIZE
    ensures Places(Apply(l, s, Receive(true)), id) == Places(s, id)
  {
    OccTail(s.results, id);
    OccSnoc(s.batch, s.results[0], id);
  }

  lemma FlushConserves(l: Limits, s: State, id: nat)
    requires Enabled(l, s, Receive(true)) && |s.batch| + 1 >= ResultWriter.BATCH_SIZE
    ensures Places(Apply(l, s, Receive(true)), id) == Places(s, id)
  {
    OccTail(s.results, id);
    OccSnoc(s.batch, s.results[0], id);
    OccConcat(s.flushed, s.batch + [s.results[0]], id);
  }

  lemma ReceiveConserves(l: Limits, s: State, keep: bool, id: nat)
    requires Enabled(l, s, Receive(keep))
    ensures Places(Apply(l, s, Receive(keep)), id) == Places(s, id)
  {
    if !keep { SkipConserves(l, s, id); }
    else if |s.batch| + 1 < ResultWriter.BATCH_SIZE { KeepConserves(l, s, id); }
    else { FlushConserves(l, s, id); }
  }

  lemma TakeConserves(l: Limits, s: State, w: nat, id: nat)
    requires Enabled(l, s, Take(w))
    ensures Places(Apply(l, s, Take(w)), id) == Places(s, id)
  {
    OccTail(s.events, id);
    HeldUpdate(s.workers, w, Busy(s.events[0]), id);
  }

  lemma PutConserves(l: Limits, s: State, w: nat, id: nat)
    requires Enabled(l, s, Put(w))
    ensures Places(Apply(l, s, Put(w)), id) == Places(s, id)
  {
    HeldUpdate(s.workers, w, Idle, id);
    OccSnoc(s.results, s.workers[w].event, id);
  }

  lemma EnqueuePlaces(l: Limits, s: State, id: nat)
    requires Enabled(l, s, Enqueue)
    ensures Places(Apply(l, s, Enqueue), id) == Places(s, id) + if !s.eventsClosed && id == s.accepted then 1 else 0
  {
    OccSnoc(s.events, s.accepted, id);
  }

  lemma FlushPlaces(l: Limits, s: State, a: Action, id: nat)
    requires Enabled(l, s, a) && (a.Tick? || a.Finish? || a.GiveUp?)
    ensures Places(Apply(l, s, a), id) == Places(s, id)
  {
    OccConcat(s.flushed, s.batch, id);
  }

  lemma PlacesStep(l: Limits, s: State, a: Action, id: nat)
    requires Enabled(l, s, a)
    ensures Places(Apply(l, s, a), id) ==
            Places(s, id) + if a == Enqueue && !s.eventsClosed && id == s.accepted then 1 else 0
  {
    match a
    case Enqueue => EnqueuePlaces(l, s, id);
    case Take(w) => TakeConserves(l, s, w, id);
    case Put(w) => PutConserves(l, s, w, id);
    case Exit(w) => HeldUpdate(s.workers, w, Exited, id);
    case Receive(keep) => ReceiveConserves(l, s, keep, id);
    case Tick => FlushPlaces(l, s, a, id);
    case Finish => FlushPlaces(l, s, a, id);
    case GiveUp => FlushPlaces(l, s, a, id);
    case ForceCancel =>
    case Arrive =>
    case Depart =>
    case BeginShutdown =>
    case ShutdownReturns(_) =>
    case CloseEvents =>
    case CloseResults =>
  }

  // ---- order of closing ----

  ghost predicate Ordered(l: Limits, s: State) {
    && s.workers != [] && |s.events| <= l.events && |s.results| <= l.results && |s.batch| < ResultWriter.BATCH_SIZE
    && (s.eventsClosed ==> s.http.Stopped?)
    && (forall w | 0 <= w < |s.workers| && s.workers[w].Exited? :: s.eventsClosed && s.events == [])
    && (s.resultsClosed ==> forall w | 0 <= w < |s.workers| :: s.workers[w].Exited?)
    && (s.finished ==> s.batch == [] && (s.gaveUp || (s.resultsClosed && s.results == [])))
    && (s.gaveUp ==> s.finished && s.forced)
    && (s.http.Stopped? && s.clean ==> s.handlers == 0)
    && (s.panicked ==> s.eventsClosed && !s.clean)
  }

  lemma WorkerStep(l: Limits, s: State, a: Action)
    requires Ordered(l, s) && Enabled(l, s, a) && (a.Put? || a.Take? || a.Exit?)
    ensures Ordered(l, Apply(l, s, a)) && !s.resultsClosed
  {
    assert !s.workers[a.worker].Exited?;
  }

  lemma SkipStep(l: Limits, s: State)
    requires Ordered(l, s) && Enabled(l, s, Receive(false))
    ensures Ordered(l, Apply(l, s, Receive(false)))
  {
  }

  lemma KeepStep(l: Limits, s: State)
    requires Ordered(l, s) && Enabled(l, s, Receive(true)) && |s.batch| + 1 < ResultWriter.BATCH_SIZE
    ensures Ordered(l, Apply(l, s, Receive(true)))
  {
  }

  lemma FlushStep(l: Limits, s: State)
    requires Ordered(l, s) && Enabled(l, s, Receive(true)) && |s.batch| + 1 >= ResultWriter.BATCH_SIZE
    ensures Ordered(l, Apply(l, s, Receive(true)))
  {
  }

  lemma WriterStep(l: Limits, s: State, a: Action)
    requires Ordered(l, s) && Enabled(l, s, a) && (a.Tick? || a.Finish? || a.GiveUp? || a.CloseResults?)
    ensures Ordered(l, Apply(l, s, a))
  {
  }

  lemma IngestStep(l: Limits, s: State, a: Action)
    requires Ordered(l, s) && Enabled(l, s, a)
    requires a.Arrive? || a.Depart? || a.Enqueue? || a.BeginShutdown? || a.ShutdownReturns? || a.CloseEvents?
        || a.ForceCancel?
    ensures Ordered(l, Apply(l, s, a))
  {
  }

  lemma OrderedStep(l: Limits, s: State, a: Action)
    requires Ordered(l, s) && Enabled(l, s, a)
    ensures Ordered(l, Apply(l, s, a))
    ensures a.Put? ==> !s.resultsClosed
  {
    if a.Put? || a.Take? || a.Exit? {
      WorkerStep(l, s, a);
    } else if a.Receive? {
      if !a.keep { SkipStep(l, s); }
      else if |s.batch| + 1 < ResultWriter.BATCH_SIZE { KeepStep(l, s); }
      else { FlushStep(l, s); }
    } else if a.Tick? || a.Finish? || a.GiveUp? || a.CloseResults? {
      WriterStep(l, s, a);
    } else {
      IngestStep(l, s, a);
    }
  }

  ghost predicate Inv(l: Limits, s: State) { Ordered(l, s) && Conserved(s) }

  lemma AcceptedStep(l: Limits, s: State, a: Action)
    requires Enabled(l, s, a)
    ensures Apply(l, s, a).accepted == s.accepted + if a == Enqueue && !s.eventsClosed then 1 else 0
  {
    match a
    case Enqueue =>
    case Receive(_) =>
    case Put(_) =>
    case _ =>
  }

  lemma ConservedStep(l: Limits, s: State, a: Action)
    requires Conserved(s) && Enabled(l, s, a)
    ensures Conserved(Apply(l, s, a))
  {
    var s' := Apply(l, s, a);
    AcceptedStep(l, s, a);
    forall id: nat ensures Places(s', id) == if id < s'.accepted then 1 else 0 {
      assert Places(s, id) == if id < s.accepted then 1 else 0;
      PlacesStep(l, s, a, id);
    }
  }

  lemma InvStep(l: Limits, s: State, s': State)
    requires Inv(l, s) && Next(l, s, s')
    ensures Inv(l, s')
  {
    var a :| Enabled(l, s, a) && s' == Apply(l, s, a);
    OrderedStep(l, s, a);
    ConservedStep(l, s, a);
  }

  lemma {:induction false} NothingHeld(workers: seq<Worker>, id: nat)
    requires forall w | 0 <= w < |workers| :: !workers[w].Busy?
    ensures Held(workers, id) == 0
  {
    if workers != [] { NothingHeld(workers[..|workers| - 1], id); }
  }

  lemma {:induction false} InvAlong(l: Limits, run: seq<State>, k: nat)
    requires Run(l, run) && k < |run|
    ensures Inv(l, run[k])
  {
    if k == 0 {
      forall id: nat ensures Places(run[0], id) == 0 { NothingHeld(run[0].workers, id); }
    } else {
      InvAlong(l, run, k - 1);
      assert Next(l, run[k - 1], run[k - 1 + 1]);
      InvStep(l, run[k - 1], run[k]);
    }
  }

  /** In every run each accepted event is in exactly one place, and nothing is ever sent on a closed channel
      unless the HTTP shutdown returned with handlers still running. */
  lemma EveryEventInOnePlace(l: Limits, run: seq<State>, id: nat)
    requires Run(l, run)
    ensures var s := run[|run| - 1];
            && Places(s, id) == (if id < s.accepted then 1 else 0)
            && (s.panicked ==> s.http.Stopped? && !s.clean)
            && |s.batch| < 100
  {
    InvAlong(l, run, |run| - 1);
  }

  /** Once the event channel is closed, a panic is one step away exactly when a handler is still running. */
  lemma PanicIffHandlers(l: Limits, s: State)
    requires Inv(l, s) && s.eventsClosed && !s.panicked
    ensures (exists a :: Enabled(l, s, a) && Apply(l, s, a).panicked) <==> s.handlers > 0
  {
    if s.handlers > 0 {
      assert Enabled(l, s, Enqueue) && Apply(l, s, Enqueue).panicked;
    }
    forall a | Enabled(l, s, a) && Apply(l, s, a).panicked ensures s.handlers > 0 {
      OrderedStep(l, s, a);
    }
  }

  // ---- the drain ----

  function Cost(x: Worker): nat { match x { case Idle => 1 case Busy(_) => 4 case Exited => 0 } }

  function Active(workers: seq<Worker>): nat {
    if workers == [] then 0
    else Active(workers[..|workers| - 1]) + Cost(workers[|workers| - 1])
  }

  lemma {:induction false} ActiveUpdate(workers: seq<Worker>, w: nat, x: Worker)
    requires w < |workers|
    ensures Active(workers[w := x]) == Active(workers) - Cost(workers[w]) + Cost(x)
  {
    var n, updated := |workers| - 1, workers[w := x];
    if w == n {
      assert updated[..n] == workers[..n];
    } else {
      assert updated[..n] == workers[..n][w := x];
      ActiveUpdate(workers[..n], w, x);
    }
  }

  /** Steps still to be made, at most. */
  function Measure(s: State): nat {
    4 * |s.events| + Active(s.workers) + 2 * |s.results| + |s.batch|
    + (if s.resultsClosed then 0 else 1) + (if s.finished then 0 else 1) + (if s.forced then 0 else 1)
  }

  /** The drain has begun, with no handler left. */
  ghost predicate Draining(l: Limits, s: State) { Inv(l, s) && s.eventsClosed && s.clean }

  lemma MeasureStep(l: Limits, s: State, a: Action)
    requires Ordered(l, s) && s.eventsClosed && s.clean && Enabled(l, s, a)
    ensures var s' := Apply(l, s, a); s'.eventsClosed && s'.clean && Measure(s') < Measure(s)
  {
    OrderedStep(l, s, a);
    if a.Take? || a.Put? || a.Exit? {
      ActiveUpdate(s.workers, a.worker, Apply(l, s, a).workers[a.worker]);
    }
  }

  lemma DrainStep(l: Limits, s: State, s': State)
    requires Draining(l, s) && Next(l, s, s')
    ensures Draining(l, s') && Measure(s') < Measure(s)
  {
    InvStep(l, s, s');
    var a :| Enabled(l, s, a) && s' == Apply(l, s, a);
    MeasureStep(l, s, a);
  }

  /** A drain never blocks before the writer has finished. */
  lemma DrainProgress(l: Limits, s: State) returns (a: Action)
    requires Draining(l, s) && !s.finished && l.results > 0
    ensures Enabled(l, s, a)
  {
    if s.results != [] {
      a := Receive(true);
    } else if w :| 0 <= w < |s.workers| && s.workers[w].Busy? {
      a := Put(w);
    } else if w :| 0 <= w < |s.workers| && s.workers[w].Idle? {
      a := if s.events != [] then Take(w) else Exit(w);
    } else {
      assert forall w | 0 <= w < |s.workers| :: s.workers[w].Exited?;
      a := if !s.resultsClosed then CloseResults else Finish;
    }
  }

  /** How often an event is still on its way to the writer. */
  function Left(s: State, id: nat): nat { Occ(s.events, id) + Held(s.workers, id) + Occ(s.results, id) }

  /** A writer that finishes without giving up leaves nothing behind. */
  lemma FinishedIsFlushed(l: Limits, s: State, id: nat)
    requires Inv(l, s) && s.finished
    ensures Occ(s.flushed, id) + Occ(s.skipped, id) + Left(s, id) == if id < s.accepted then 1 else 0
    ensures !s.gaveUp ==> Left(s, id) == 0
  {
    if !s.gaveUp {
      assert s.workers[0].Exited?;
      NothingHeld(s.workers, id);
    }
    assert Places(s, id) == if id < s.accepted then 1 else 0;
  }

  lemma {:induction false} DrainAlong(l: Limits, run: seq<State>, k: nat)
    requires Steps(l, run) && Draining(l, run[0]) && k < |run|
    ensures Draining(l, run[k]) && Measure(run[k]) + k <= Measure(run[0])
  {
    if k > 0 {
      DrainAlong(l, run, k - 1);
      assert Next(l, run[k - 1], run[k - 1 + 1]);
      DrainStep(l, run[k - 1], run[k]);
    }
  }

  /** After a clean shutdown every run drains: it has a bounded number of steps and can stop only when the writer
      has finished; then every accepted event was flushed or skipped by policy, exactly once, unless the writer
      gave up while the event was still on its way. */
  lemma DrainCompletes(l: Limits, run: seq<State>, id: nat)
    requires Steps(l, run) && Draining(l, run[0]) && l.results > 0
    ensures |run| <= Measure(run[0]) + 1
    ensures var s := run[|run| - 1];
            (forall a :: !Enabled(l, s, a)) ==>
              && s.finished && (!s.gaveUp ==> Left(s, id) == 0)
              && Occ(s.flushed, id) + Occ(s.skipped, id) + Left(s, id) == if id < s.accepted then 1 else 0
  {
    var s := run[|run| - 1];
    DrainAlong(l, run, |run| - 1);
    if !s.finished {
      var a := DrainProgress(l, s);
      assert Enabled(l, s, a);
    } else {
      FinishedIsFlushed(l, s, id);
    }
  }

  // ---- events get in, and through ----

  lemma Go(l: Limits, run: seq<State>, a: Action) returns (run': seq<State>)
    requires Run(l, run) && Enabled(l, run[|run| - 1], a)
    ensures Run(l, run') && run <= run' && run'[|run'| - 1] == Apply(l, run[|run| - 1], a)
  {
    run' := run + [Apply(l, run[|run| - 1], a)];
    forall k | 0 <= k < |run'| - 1 ensures Next(l, run'[k], run'[k + 1]) {
      if k < |run| - 1 { assert Next(l, run[k], run[k + 1]); }
    }
  }

  /** A handler's event is accepted whenever the open channel has room, and is then in the channel, behind all
      others. */
  lemma EnqueueAccepts(l: Limits, run: seq<State>) returns (run': seq<State>)
    requires Run(l, run)
    requires var s := run[|run| - 1]; s.handlers > 0 && !s.eventsClosed && |s.events| < l.events
    ensures Run(l, run') && run <= run'
    ensures var s, s' := run[|run| - 1], run'[|run'| - 1];
            s'.events == s.events + [s.accepted] && s'.accepted == s.accepted + 1
  {
    InvAlong(l, run, |run| - 1);
    run' := Go(l, run, Enqueue);
  }

  /** The event channel holds the newest accepted events, oldest first. */
  ghost predicate Fifo(s: State) {
    |s.events| <= s.accepted && forall i | 0 <= i < |s.events| :: s.events[i] == s.accepted - |s.events| + i
  }

  lemma FifoTake(l: Limits, s: State, w: nat)
    requires Fifo(s) && Enabled(l, s, Take(w))
    ensures Fifo(Apply(l, s, Take(w)))
  {
  }

  lemma FifoEnqueue(l: Limits, s: State)
    requires Fifo(s) && Enabled(l, s, Enqueue)
    ensures Fifo(Apply(l, s, Enqueue))
  {
  }

  lemma ChannelElse(l: Limits, s: State, a: Action)
    requires Enabled(l, s, a) && !a.Take? && !a.Enqueue?
    ensures Apply(l, s, a).events == s.events && Apply(l, s, a).accepted == s.accepted
  {
    match a
    case Receive(_) =>
    case Put(_) =>
    case _ =>
  }

  lemma FifoStep(l: Limits, s: State, a: Action)
    requires Fifo(s) && Enabled(l, s, a)
    ensures Fifo(Apply(l, s, a))
  {
    match a
    case Enqueue => FifoEnqueue(l, s);
    case Take(w) => FifoTake(l, s, w);
    case _ => ChannelElse(l, s, a);
  }

  lemma {:induction false} FifoAlong(l: Limits, run: seq<State>, k: nat)
    requires Run(l, run) && k < |run|
    ensures Fifo(run[k])
  {
    if k > 0 {
      FifoAlong(l, run, k - 1);
      assert Next(l, run[k - 1], run[k - 1 + 1]);
      var a :| Enabled(l, run[k - 1], a) && run[k] == Apply(l, run[k - 1], a);
      FifoStep(l, run[k - 1], a);
    }
  }

  /** In every run an idle worker takes the oldest event still in the channel. */
  lemma OldestFirst(l: Limits, run: seq<State>, w: nat)
    requires Run(l, run) && Enabled(l, run[|run| - 1], Take(w))
    ensures var s, s' := run[|run| - 1], Apply(l, run[|run| - 1], Take(w));
            && s'.workers[w].Busy? && s'.workers[w].event in s.events
            && forall e | e in s.events :: s'.workers[w].event <= e
  {
    FifoAlong(l, run, |run| - 1);
  }

  lemma EventIsEvaluated(l: Limits) returns (run: seq<State>)
    requires l.events > 0 && l.results > 0
    ensures Run(l, run)
    ensures var s := run[|run| - 1];
            && s.results == [0] && s.accepted == 1 && s.batch == [] && s.flushed == [] && s.skipped == []
            && !s.finished && !s.panicked
  {
    run := [State(Serving, 0, true, [], false, [Idle], [], false, [], [], [], false, 0, false, false, false)];
    run := Go(l, run, Arrive);
    run := Go(l, run, Enqueue);
    run := Go(l, run, Take(0));
    run := Go(l, run, Put(0));
  }

  /** An event goes all the way: enqueued, evaluated, and flushed if the policy keeps it, skipped if not. */
  lemma EventGoesThrough(l: Limits, keep: bool) returns (run: seq<State>)
    requires l.events > 0 && l.results > 0
    ensures Run(l, run) && run[|run| - 1].accepted == 1
    ensures run[|run| - 1].flushed == if keep then [0] else []
    ensures run[|run| - 1].skipped == if keep then [] else [0]
  {
    run := EventIsEvaluated(l);
    run := Go(l, run, Receive(keep));
    if keep { run := Go(l, run, Tick); }
  }

  // ---- a shutdown that is not clean ----

  /** An HTTP shutdown that times out leaves a handler behind; the channel is closed all the same, and the
      handler's next send panics. */
  lemma PanicRun(l: Limits) returns (run: seq<State>)
    ensures Run(l, run) && run[|run| - 1].panicked
  {
    run := [State(Serving, 0, true, [], false, [Idle], [], false, [], [], [], false, 0, false, false, false)];
    run := Go(l, run, Arrive);
    run := Go(l, run, BeginShutdown);
    run := Go(l, run, ShutdownReturns(false));
    run := Go(l, run, CloseEvents);
    run := Go(l, run, Enqueue);
  }
}
