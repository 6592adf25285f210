/**
 The store under concurrency: workers that fetch a series and then swap into it,
 against one collector that reads a series slot by slot before it deletes the key.
 Each series carries the epochs landed in it and, beside each, when the increment
 fetched the series and when it landed (steps of the run); the program holds neither.
 */
module CounterGcRace {
  import opened Words
  import opened CounterRing
  import opened CounterStore

  datatype Span = Span(fetchedAt: nat, landedAt: nat)

  datatype Series = Series(key: CounterKey, ring: Ring, log: seq<Epoch>, spans: seq<Span>)

  datatype Pc =
    | Idle
    | Loading(id: nat, epoch: Epoch, fetchedAt: nat)
    | Swapping(id: nat, epoch: Epoch, fetchedAt: nat, seen: Word)

  /** The collector at rest, or visiting the series of a key with slots below `pos` found old. */
  datatype Collector = Resting | Visiting(key: CounterKey, id: nat, now: Time, pos: nat, startedAt: nat)

  datatype Eviction = Eviction(now: Time, startedAt: nat, deletedAt: nat)

  datatype State = State(
    heap: seq<Series>, live: map<CounterKey, nat>, workers: seq<Pc>,
    gc: Collector, evicted: map<nat, Eviction>, clock: nat)

  datatype Action =
    | Fetch(worker: nat, key: CounterKey, at: Time)
    | Load(worker: nat)
    | CompareAndSwap(worker: nat)
    | Visit(key: CounterKey, now: Time)
    | ScanSlot
    | Delete

  ghost predicate Init(s: State) {
    && s.heap == [] && s.live == map[] && s.gc == Resting && s.evicted == map[] && s.clock == 0
    && forall w | 0 <= w < |s.workers| :: s.workers[w] == Idle
  }

  predicate Enabled(s: State, a: Action) {
    match a
    case Fetch(w, _, _) => w < |s.workers| && s.workers[w].Idle?
    case Load(w) => w < |s.workers| && s.workers[w].Loading? && s.workers[w].id < |s.heap|
    case CompareAndSwap(w) => w < |s.workers| && s.workers[w].Swapping? && s.workers[w].id < |s.heap|
    case Visit(k, now) => s.gc.Resting? && k in s.live && now > MAX_WINDOW_SECONDS - BUCKET_SECONDS
    case ScanSlot => s.gc.Visiting? && s.gc.pos < SLOTS && s.gc.id < |s.heap|
    case Delete => s.gc.Visiting? && s.gc.pos == SLOTS
  }

  function Apply(s: State, a: Action): State
    requires Enabled(s, a)
  {
    var t := s.(clock := s.clock + 1);
    match a
    case Fetch(w, k, at) =>
      if k in s.live then
        t.(workers := s.workers[w := Loading(s.live[k], EpochOf(at), s.clock)])
      else
        t.(heap := s.heap + [Series(k, EMPTY, [], [])], live := s.live[k := |s.heap|],
           workers := s.workers[w := Loading(|s.heap|, EpochOf(at), s.clock)])
    case Load(w) =>
      var Loading(id, e, f) := s.workers[w];
      t.(workers := s.workers[w := Swapping(id, e, f, s.heap[id].ring[e % SLOTS])])
    case CompareAndSwap(w) =>
      var Swapping(id, e, f, seen) := s.workers[w];
      if s.heap[id].ring[e % SLOTS] == seen then
        t.(heap := s.heap[id := Landed(s.heap[id], e, Span(f, s.clock))], workers := s.workers[w := Idle])
      else
        t.(workers := s.workers[w := Loading(id, e, f)])
    case Visit(k, now) => t.(gc := Visiting(k, s.live[k], now, 0, s.clock))
    case ScanSlot =>
      if SlotEpoch(s.heap[s.gc.id].ring[s.gc.pos]) >= Cutoff(s.gc.now)
      then t.(gc := Resting)
      else t.(gc := s.gc.(pos := s.gc.pos + 1))
    case Delete =>
      t.(live := s.live - {s.gc.key}, gc := Resting,
         evicted := s.evicted[s.gc.id := Eviction(s.gc.now, s.gc.startedAt, s.clock)])
  }

  function Landed(x: Series, e: Epoch, span: Span): Series {
    x.(ring := Land(x.ring, e), log := x.log + [e], spans := x.spans + [span])
  }

  ghost predicate Next(s: State, s': State) {
    exists a :: Enabled(s, a) && s' == Apply(s, a)
  }

  ghost predicate Run(run: seq<State>) {
    && |run| > 0 && Init(run[0])
    && forall k | 0 <= k < |run| - 1 :: Next(run[k], run[k + 1])
  }

  // ---- what every step keeps ----

  ghost predicate Attached(s: State, id: nat)
    requires id < |s.heap|
  {
    s.heap[id].key in s.live && s.live[s.heap[id].key] == id
  }

  /** A series is reachable through its key until the collector deletes it, and not after. */
  ghost predicate Shaped(s: State) {
    && (forall k | k in s.live :: s.live[k] < |s.heap| && s.heap[s.live[k]].key == k)
    && (forall id | 0 <= id < |s.heap| :: Attached(s, id) <==> id !in s.evicted)
    && (forall id | id in s.evicted :: id < |s.heap|)
    && (s.gc.Visiting? ==>
          s.gc.key in s.live && s.live[s.gc.key] == s.gc.id && s.gc.startedAt < s.clock && s.gc.pos <= SLOTS)
  }

  ghost predicate SeriesOk(x: Series) {
    x.ring == Replay(x.log) && |x.spans| == |x.log|
  }

  ghost predicate HeapOk(s: State) {
    forall id | 0 <= id < |s.heap| :: SeriesOk(s.heap[id])
  }

  /** An increment on the way, or landed, in an evicted series fetched it before the deletion. */
  ghost predicate FetchOk(s: State, id: nat, fetchedAt: nat) {
    && id < |s.heap| && fetchedAt < s.clock
    && (id in s.evicted ==> fetchedAt < s.evicted[id].deletedAt)
  }

  ghost predicate WorkersOk(s: State) {
    forall w | 0 <= w < |s.workers| && !s.workers[w].Idle? :: FetchOk(s, s.workers[w].id, s.workers[w].fetchedAt)
  }

  ghost predicate SpansOk(s: State) {
    forall id, n | 0 <= id < |s.heap| && 0 <= n < |s.heap[id].spans| ::
      FetchOk(s, id, s.heap[id].spans[n].fetchedAt) && s.heap[id].spans[n].landedAt < s.clock
  }

  /** An epoch the visit need not keep: it was old when its slot was read, or it landed after the visit began. */
  ghost predicate Excused(x: Series, n: nat, now: Time, startedAt: nat)
    requires n < |x.log| && n < |x.spans|
  {
    x.log[n] < Cutoff(now) || startedAt < x.spans[n].landedAt
  }

  ghost predicate Scanned(x: Series, now: Time, startedAt: nat, pos: nat) {
    forall n | 0 <= n < |x.log| && n < |x.spans| && x.log[n] % SLOTS < pos :: Excused(x, n, now, startedAt)
  }

  ghost predicate GcOk(s: State) {
    && (s.gc.Visiting? && s.gc.id < |s.heap| ==> Scanned(s.heap[s.gc.id], s.gc.now, s.gc.startedAt, s.gc.pos))
    && (forall id | id in s.evicted && id < |s.heap| ::
          Scanned(s.heap[id], s.evicted[id].now, s.evicted[id].startedAt, SLOTS) && s.evicted[id].startedAt < s.clock)
  }

  ghost predicate Inv(s: State) {
    Shaped(s) && HeapOk(s) && WorkersOk(s) && SpansOk(s) && GcOk(s)
  }

  lemma DeleteShaped(s: State)
    requires Shaped(s) && Enabled(s, Delete)
    ensures Shaped(Apply(s, Delete))
  {
    var s' := Apply(s, Delete);
    assert Attached(s, s.gc.id);
    forall id | 0 <= id < |s.heap| ensures Attached(s', id) <==> id !in s'.evicted {
      assert Attached(s, id) <==> id !in s.evicted;
    }
  }

  lemma CreateShaped(s: State, w: nat, k: CounterKey, at: Time)
    requires Shaped(s) && Enabled(s, Fetch(w, k, at)) && k !in s.live
    ensures Shaped(Apply(s, Fetch(w, k, at)))
  {
    var s' := Apply(s, Fetch(w, k, at));
    assert Attached(s', |s.heap|);
    forall id | 0 <= id < |s.heap| ensures Attached(s', id) <==> id !in s'.evicted {
      assert Attached(s, id) <==> id !in s.evicted;
    }
  }

  lemma ShapedStep(s: State, a: Action)
    requires Shaped(s) && Enabled(s, a)
    ensures Shaped(Apply(s, a))
  {
    if a.Delete? {
      DeleteShaped(s);
    } else if a.Fetch? && a.key !in s.live {
      CreateShaped(s, a.worker, a.key, a.at);
    } else {
      var s' := Apply(s, a);
      assert s'.live == s.live && s'.evicted == s.evicted && |s'.heap| == |s.heap|;
      assert forall id | 0 <= id < |s.heap| :: s'.heap[id].key == s.heap[id].key;
      assert forall id | 0 <= id < |s.heap| :: Attached(s', id) == Attached(s, id);
    }
  }

  lemma HeapStep(s: State, a: Action)
    requires HeapOk(s) && WorkersOk(s) && Enabled(s, a)
    ensures HeapOk(Apply(s, a))
  {
    var s' := Apply(s, a);
    forall id | 0 <= id < |s'.heap| ensures SeriesOk(s'.heap[id]) {
      if id < |s.heap| {
        var x := s.heap[id];
        assert SeriesOk(x);
        if s'.heap[id] != x {
          assert s'.heap[id].log[..|x.log|] == x.log;
        }
      }
    }
  }

  lemma FetchLasts(s: State, a: Action, id: nat, fetchedAt: nat)
    requires Enabled(s, a) && FetchOk(s, id, fetchedAt)
    ensures FetchOk(Apply(s, a), id, fetchedAt)
  {
  }

  lemma WorkersStep(s: State, a: Action)
    requires Shaped(s) && WorkersOk(s) && Enabled(s, a)
    ensures WorkersOk(Apply(s, a))
  {
    var s' := Apply(s, a);
    forall w | 0 <= w < |s'.workers| && !s'.workers[w].Idle?
      ensures FetchOk(s', s'.workers[w].id, s'.workers[w].fetchedAt)
    {
      if !s.workers[w].Idle? {
        FetchLasts(s, a, s.workers[w].id, s.workers[w].fetchedAt);
      } else if a.Fetch? && a.key in s.live {
        assert Attached(s, s.live[a.key]);
      }
    }
  }

  lemma SpansStep(s: State, a: Action)
    requires WorkersOk(s) && SpansOk(s) && Enabled(s, a)
    ensures SpansOk(Apply(s, a))
  {
    var s' := Apply(s, a);
    forall id, n | 0 <= id < |s'.heap| && 0 <= n < |s'.heap[id].spans|
      ensures FetchOk(s', id, s'.heap[id].spans[n].fetchedAt) && s'.heap[id].spans[n].landedAt < s'.clock
    {
      if id < |s.heap| && n < |s.heap[id].spans| {
        assert s'.heap[id].spans[n] == s.heap[id].spans[n];
        FetchLasts(s, a, id, s.heap[id].spans[n].fetchedAt);
      } else if id < |s.heap| {
        FetchLasts(s, a, id, s.workers[a.worker].fetchedAt);
      }
    }
  }

  /** Reading a slot: with an exact ring, an old slot means every landed epoch of it is old. */
  lemma SlotReadOld(x: Series, now: Time, startedAt: nat, pos: nat)
    requires SeriesOk(x) && Exact(x.ring, x.log) && pos < SLOTS
    requires SlotEpoch(x.ring[pos]) < Cutoff(now) && Scanned(x, now, startedAt, pos)
    ensures Scanned(x, now, startedAt, pos + 1)
  {
    assert CellExact(x.ring[pos], x.log, pos);
    NewestIsNewest(x.log, pos);
  }

  lemma LandingExcused(x: Series, e: Epoch, span: Span, now: Time, startedAt: nat, pos: nat)
    requires |x.log| == |x.spans| && Scanned(x, now, startedAt, pos) && startedAt < span.landedAt
    ensures Scanned(Landed(x, e, span), now, startedAt, pos)
  {
    var y := Landed(x, e, span);
    forall n | 0 <= n < |y.log| && y.log[n] % SLOTS < pos ensures Excused(y, n, now, startedAt) {
      if n < |x.log| { assert Excused(x, n, now, startedAt); }
    }
  }

  lemma SwapGcOk(s: State, w: nat)
    requires Inv(s) && Enabled(s, CompareAndSwap(w))
    ensures GcOk(Apply(s, CompareAndSwap(w)))
  {
    var Swapping(id, e, f, seen) := s.workers[w];
    var x := s.heap[id];
    assert SeriesOk(x);
    if x.ring[e % SLOTS] == seen {
      if s.gc.Visiting? && s.gc.id == id {
        LandingExcused(x, e, Span(f, s.clock), s.gc.now, s.gc.startedAt, s.gc.pos);
      }
      if id in s.evicted {
        LandingExcused(x, e, Span(f, s.clock), s.evicted[id].now, s.evicted[id].startedAt, SLOTS);
      }
    }
  }

  lemma ScanGcOk(s: State)
    requires Inv(s) && Enabled(s, ScanSlot) && Exact(s.heap[s.gc.id].ring, s.heap[s.gc.id].log)
    ensures GcOk(Apply(s, ScanSlot))
  {
    assert SeriesOk(s.heap[s.gc.id]);
    if Apply(s, ScanSlot).gc.Visiting? {
      SlotReadOld(s.heap[s.gc.id], s.gc.now, s.gc.startedAt, s.gc.pos);
    }
  }

  lemma GcStep(s: State, a: Action)
    requires Inv(s) && Enabled(s, a)
    requires s.gc.Visiting? ==> Exact(s.heap[s.gc.id].ring, s.heap[s.gc.id].log)
    ensures GcOk(Apply(s, a))
  {
    match a
    case CompareAndSwap(w) => SwapGcOk(s, w);
    case ScanSlot => ScanGcOk(s);
    case Fetch(_, _, _) =>
    case Load(_) =>
    case Visit(_, _) =>
    case Delete =>
  }

  /** Logs only grow, series by series. */
  ghost predicate Grown(s: State, last: State) {
    && |s.heap| <= |last.heap|
    && forall id | 0 <= id < |s.heap| ::
         s.heap[id].log <= last.heap[id].log && s.heap[id].spans <= last.heap[id].spans
  }

  ghost predicate Admissible(last: State) {
    forall id | 0 <= id < |last.heap| :: SlotOrdered(last.heap[id].log) && CountsFit(last.heap[id].log)
  }

  lemma GrownStep(s: State, a: Action, last: State)
    requires Enabled(s, a) && Grown(Apply(s, a), last)
    ensures Grown(s, last)
  {
    var s' := Apply(s, a);
    forall id | 0 <= id < |s.heap|
      ensures s.heap[id].log <= last.heap[id].log && s.heap[id].spans <= last.heap[id].spans
    {
      assert s.heap[id].log <= s'.heap[id].log <= last.heap[id].log;
      assert s.heap[id].spans <= s'.heap[id].spans <= last.heap[id].spans;
    }
  }

  lemma ExactSeries(s: State, last: State, id: nat)
    requires HeapOk(s) && Grown(s, last) && Admissible(last) && id < |s.heap|
    ensures Exact(s.heap[id].ring, s.heap[id].log)
  {
    assert SeriesOk(s.heap[id]);
    var final := last.heap[id].log;
    ExactIff(final);
    assert final[..|s.heap[id].log|] == s.heap[id].log;
  }

  lemma InvStep(s: State, s': State, last: State)
    requires Inv(s) && Next(s, s') && Grown(s', last) && Admissible(last)
    ensures Inv(s') && Grown(s, last)
  {
    var a :| Enabled(s, a) && s' == Apply(s, a);
    GrownStep(s, a, last);
    if s.gc.Visiting? {
      ExactSeries(s, last, s.gc.id);
    }
    ShapedStep(s, a);
    HeapStep(s, a);
    WorkersStep(s, a);
    SpansStep(s, a);
    GcStep(s, a);
  }

  lemma {:induction false} GrownAlong(run: seq<State>, k: nat)
    requires Run(run) && k < |run|
    ensures Grown(run[k], run[|run| - 1])
    decreases |run| - k
  {
    if k < |run| - 1 {
      GrownAlong(run, k + 1);
      var a :| Enabled(run[k], a) && run[k + 1] == Apply(run[k], a);
      GrownStep(run[k], a, run[|run| - 1]);
    }
  }

  lemma {:induction false} InvAlong(run: seq<State>, k: nat)
    requires Run(run) && k < |run| && Admissible(run[|run| - 1])
    ensures Inv(run[k])
  {
    if k > 0 {
      InvAlong(run, k - 1);
      GrownAlong(run, k);
      assert Next(run[k - 1], run[k - 1 + 1]);
      InvStep(run[k - 1], run[k], run[|run| - 1]);
    }
  }

  lemma InWindowReachesCutoff(e: Epoch, collectedAt: Time, now: Time, window: int)
    requires MAX_WINDOW_SECONDS - BUCKET_SECONDS < collectedAt <= now && window <= MAX_WINDOW_SECONDS
    requires e * BUCKET_SECONDS >= now - window
    ensures e >= Cutoff(collectedAt)
  {
  }

  /** What the race between increments and the collector can cost.  In every run, a landed increment is
      still in the series its key leads to, or the series was evicted; and then an increment that any
      later allowed window would count had its own fetch-to-swap interval overlap the collector's visit. */
  lemma LostOnlyInARace(run: seq<State>, id: nat, n: nat, now: Time, window: int)
    requires Run(run) && Admissible(run[|run| - 1])
    requires var s := run[|run| - 1]; id < |s.heap| && n < |s.heap[id].log|
    ensures var s := run[|run| - 1]; var x := s.heap[id];
            && x.ring == Replay(x.log) && n < |x.spans|
            && (Attached(s, id) <==> id !in s.evicted)
            && (id in s.evicted && s.evicted[id].now <= now && window <= MAX_WINDOW_SECONDS
                && x.log[n] * BUCKET_SECONDS >= now - window
                ==> x.spans[n].fetchedAt < s.evicted[id].deletedAt && s.evicted[id].startedAt < x.spans[n].landedAt)
  {
    var s := run[|run| - 1];
    InvAlong(run, |run| - 1);
    EvictedNow(run, |run| - 1);
    var x := s.heap[id];
    assert SeriesOk(x);
    if id in s.evicted && s.evicted[id].now <= now && window <= MAX_WINDOW_SECONDS
       && x.log[n] * BUCKET_SECONDS >= now - window {
      InWindowReachesCutoff(x.log[n], s.evicted[id].now, now, window);
      assert Scanned(x, s.evicted[id].now, s.evicted[id].startedAt, SLOTS);
      assert Excused(x, n, s.evicted[id].now, s.evicted[id].startedAt);
      assert FetchOk(s, id, x.spans[n].fetchedAt);
    }
  }

  ghost predicate VisitsMakeSense(s: State) {
    && (forall id | id in s.evicted ::
          s.evicted[id].now > MAX_WINDOW_SECONDS - BUCKET_SECONDS && Cutoff(s.evicted[id].now) > 0)
    && (s.gc.Visiting? ==>
          s.gc.now > MAX_WINDOW_SECONDS - BUCKET_SECONDS && (s.gc.pos > 0 ==> Cutoff(s.gc.now) > 0))
  }

  lemma VisitsStep(s: State, a: Action)
    requires VisitsMakeSense(s) && Enabled(s, a)
    ensures VisitsMakeSense(Apply(s, a))
  {
  }

  /** Evictions happen only at readings that make sense of the cutoff, and only once it is above zero. */
  lemma {:induction false} EvictedNow(run: seq<State>, k: nat)
    requires Run(run) && k < |run|
    ensures VisitsMakeSense(run[k])
  {
    if k > 0 {
      EvictedNow(run, k - 1);
      assert Next(run[k - 1], run[k - 1 + 1]);
      var a :| Enabled(run[k - 1], a) && run[k] == Apply(run[k - 1], a);
      VisitsStep(run[k - 1], a);
    }
  }

  // ---- exactly which keys are at risk ----

  lemma {:induction false} ClockIs(run: seq<State>, k: nat)
    requires Run(run) && k < |run|
    ensures run[k].clock == k
  {
    if k > 0 {
      ClockIs(run, k - 1);
      assert Next(run[k - 1], run[k - 1 + 1]);
    }
  }

  lemma OldLogAgesOut(x: Series, now: Time)
    requires Exact(x.ring, x.log) && Cutoff(now) > 0
    requires forall n | 0 <= n < |x.log| :: x.log[n] < Cutoff(now)
    ensures AgedOut(x.ring, now)
  {
    forall j | 0 <= j < SLOTS ensures SlotEpoch(x.ring[j]) < Cutoff(now) {
      assert CellExact(x.ring[j], x.log, j);
      NewestIsNewest(x.log, j);
    }
  }

  lemma AgedOutLogIsOld(x: Series, now: Time, n: nat)
    requires Exact(x.ring, x.log) && AgedOut(x.ring, now) && n < |x.log|
    ensures x.log[n] < Cutoff(now)
  {
    var j := x.log[n] % SLOTS;
    assert CellExact(x.ring[j], x.log, j);
    NewestIsNewest(x.log, j);
  }

  /** A visit evicts only what was aged out already at any moment before it began: increments that landed by then
      would have stopped it. */
  lemma EvictedWasAged(run: seq<State>, m: nat, id: nat)
    requires Run(run) && Admissible(run[|run| - 1]) && m < |run|
    requires var s := run[|run| - 1]; id in s.evicted && s.evicted[id].startedAt >= m
    ensures AgedOut(if id < |run[m].heap| then run[m].heap[id].ring else EMPTY, run[|run| - 1].evicted[id].now)
  {
    var s, s0 := run[|run| - 1], run[m];
    var now := s.evicted[id].now;
    InvAlong(run, |run| - 1);
    InvAlong(run, m);
    EvictedNow(run, |run| - 1);
    if id < |s0.heap| {
      ClockIs(run, m);
      GrownAlong(run, m);
      var x, x0 := s.heap[id], s0.heap[id];
      assert SeriesOk(x0) && Scanned(x, now, s.evicted[id].startedAt, SLOTS);
      forall n | 0 <= n < |x0.log| ensures x0.log[n] < Cutoff(now) {
        assert x0.spans[n] == x.spans[n] && s0.heap[id].spans[n].landedAt < s0.clock;
        assert Excused(x, n, now, s.evicted[id].startedAt);
      }
      ExactSeries(s0, s, id);
      OldLogAgesOut(x0, now);
    } else {
      assert forall j | 0 <= j < SLOTS :: SlotEpoch(EMPTY[j]) == 0;
    }
  }

  /** The series that a fetch of the key would use. */
  function SeriesNow(s: State, k: CounterKey): Series {
    if k in s.live && s.live[k] < |s.heap| then s.heap[s.live[k]] else Series(k, EMPTY, [], [])
  }

  /** The ring that a key leads to: an empty one if it has none. */
  function RingNow(s: State, k: CounterKey): Ring { SeriesNow(s, k).ring }

  /** The series that the key leads to in `s0`, or one it gets later. */
  ghost predicate SeriesFrom(s0: State, k: CounterKey, id: nat) {
    if k in s0.live then id == s0.live[k] else id >= |s0.heap|
  }

  /** After `s0`, an increment of the key at second `at` landed in the key's series although a visit at second
      `now` evicted it; both began after `s0`. */
  ghost predicate Loses(s0: State, s: State, k: CounterKey, at: Time, now: Time, id: nat, n: nat) {
    && SeriesFrom(s0, k, id) && id < |s.heap| && s.heap[id].key == k && n < |s.heap[id].log| && n < |s.heap[id].spans|
    && s.heap[id].log[n] == EpochOf(at) && s.heap[id].spans[n].fetchedAt >= s0.clock
    && id in s.evicted && s.evicted[id].now == now && s.evicted[id].startedAt >= s0.clock
  }

  ghost predicate LosesSome(s0: State, s: State, k: CounterKey, at: Time, now: Time) {
    exists id: nat, n: nat :: Loses(s0, s, k, at, now, id, n)
  }

  /** The increment is lost to an admissible run that continues `run0`. */
  ghost predicate CanLose(run0: seq<State>, k: CounterKey, at: Time, now: Time)
    requires run0 != []
  {
    exists run: seq<State> ::
      Run(run) && run0 <= run && Admissible(run[|run| - 1]) && LosesSome(run0[|run0| - 1], run[|run| - 1], k, at, now)
  }

  lemma Extend(run: seq<State>, a: Action)
    requires Run(run) && Enabled(run[|run| - 1], a)
    ensures Run(run + [Apply(run[|run| - 1], a)])
  {
    var run' := run + [Apply(run[|run| - 1], a)];
    forall k | 0 <= k < |run'| - 1 ensures Next(run'[k], run'[k + 1]) {
      if k < |run| - 1 { assert Next(run[k], run[k + 1]); }
    }
  }

  lemma Go(run: seq<State>, a: Action) returns (run': seq<State>)
    requires Run(run) && Enabled(run[|run| - 1], a)
    ensures Run(run') && run <= run' && run'[|run'| - 1] == Apply(run[|run| - 1], a)
  {
    Extend(run, a);
    run' := run + [Apply(run[|run| - 1], a)];
  }

  /** An undisturbed visit to an aged-out series deletes its key. */
  lemma VisitDeletes(run0: seq<State>, k: CounterKey, at: Time) returns (run: seq<State>)
    requires Run(run0) && Enabled(run0[|run0| - 1], Visit(k, at))
    requires var s0 := run0[|run0| - 1]; s0.live[k] < |s0.heap| && AgedOut(s0.heap[s0.live[k]].ring, at)
    ensures Run(run) && run0 <= run
    ensures var s0, s := run0[|run0| - 1], run[|run| - 1];
            && s.heap == s0.heap && s.workers == s0.workers && s.live == s0.live - {k} && s.gc == Resting
            && s.clock > s0.clock && s.evicted == s0.evicted[s0.live[k] := Eviction(at, s0.clock, s.clock - 1)]
  {
    var s0 := run0[|run0| - 1];
    run := Go(run0, Visit(k, at));
    var visiting := run[|run| - 1];
    var i := 0;
    while i < SLOTS
      invariant 0 <= i <= SLOTS && Run(run) && run0 <= run
      invariant run[|run| - 1] == visiting.(gc := visiting.gc.(pos := i), clock := visiting.clock + i)
    {
      assert SlotEpoch(s0.heap[s0.live[k]].ring[i]) < Cutoff(at);
      run := Go(run, ScanSlot);
      i := i + 1;
    }
    run := Go(run, Delete);
  }

  /** An undisturbed visit to a series that is not aged out leaves it alone. */
  lemma VisitSpares(run0: seq<State>, k: CounterKey, at: Time) returns (run: seq<State>)
    requires Run(run0) && Enabled(run0[|run0| - 1], Visit(k, at))
    requires var s0 := run0[|run0| - 1]; s0.live[k] < |s0.heap| && !AgedOut(s0.heap[s0.live[k]].ring, at)
    ensures Run(run) && run0 <= run
    ensures var s0, s := run0[|run0| - 1], run[|run| - 1];
            && s.heap == s0.heap && s.workers == s0.workers && s.live == s0.live && s.evicted == s0.evicted
                && s.gc == Resting
  {
    var s0 := run0[|run0| - 1];
    var ring := s0.heap[s0.live[k]].ring;
    run := Go(run0, Visit(k, at));
    var visiting := run[|run| - 1];
    var i := 0;
    while i < SLOTS && SlotEpoch(ring[i]) < Cutoff(at)
      invariant 0 <= i <= SLOTS && Run(run) && run0 <= run
      invariant forall j | 0 <= j < i :: SlotEpoch(ring[j]) < Cutoff(at)
      invariant run[|run| - 1] == visiting.(gc := visiting.gc.(pos := i), clock := visiting.clock + i)
    {
      run := Go(run, ScanSlot);
      i := i + 1;
    }
    run := Go(run, ScanSlot);
  }

  /** An undisturbed increment lands in the key's live series, a new one if it had none, and in no other. */
  lemma SoloLands(run0: seq<State>, w: nat, k: CounterKey, at: Time) returns (run: seq<State>)
    requires Run(run0) && Shaped(run0[|run0| - 1])
    requires w < |run0[|run0| - 1].workers| && run0[|run0| - 1].workers[w].Idle?
    ensures Run(run) && run0 <= run
    ensures var s0, s := run0[|run0| - 1], run[|run| - 1];
            && |s0.heap| <= |s.heap| && k in s.live && SeriesFrom(s0, k, s.live[k]) && s.live[k] < |s.heap|
            && s.heap[s.live[k]].log == SeriesNow(s0, k).log + [EpochOf(at)]
            && s.heap[s.live[k]].ring == Land(RingNow(s0, k), EpochOf(at))
            && (forall i | 0 <= i < |s0.heap| && i != s.live[k] :: s.heap[i] == s0.heap[i])
            && (forall l | l != k :: l in s.live <==> l in s0.live)
            && (forall l | l != k && l in s.live && l in s0.live :: s.live[l] == s0.live[l])
  {
    run := Go(run0, Fetch(w, k, at));
    run := Go(run, Load(w));
    run := Go(run, CompareAndSwap(w));
  }

  /** An increment that fetched an aged-out series is overtaken by a visit. */
  lemma AgedOutLoses(run0: seq<State>, w: nat, k: CounterKey, at: Time, now: Time) returns (run: seq<State>, id: nat)
    requires Run(run0) && Shaped(run0[|run0| - 1]) && run0[|run0| - 1].gc.Resting?
    requires w < |run0[|run0| - 1].workers| && run0[|run0| - 1].workers[w].Idle?
    requires now > MAX_WINDOW_SECONDS - BUCKET_SECONDS && AgedOut(RingNow(run0[|run0| - 1], k), now)
    ensures Run(run) && run0 <= run && SeriesFrom(run0[|run0| - 1], k, id)
    ensures var s0, s := run0[|run0| - 1], run[|run| - 1];
            && |s0.heap| <= |s.heap| && (k in s0.live ==> |s.heap| == |s0.heap|)
            && (k !in s0.live ==> id == |s0.heap| == |s.heap| - 1)
            && id < |s.heap| && (forall i | 0 <= i < |s0.heap| && i != id :: s.heap[i] == s0.heap[i])
            && s.heap[id].key == k && s.heap[id].log == SeriesNow(s0, k).log + [EpochOf(at)]
            && |s.heap[id].spans| == |SeriesNow(s0, k).spans| + 1
            && s.heap[id].spans[|SeriesNow(s0, k).spans|].fetchedAt == s0.clock
            && k !in s.live && id in s.evicted && s.evicted[id].now == now && s.evicted[id].startedAt >= s0.clock
  {
    var s0 := run0[|run0| - 1];
    run := Go(run0, Fetch(w, k, at));
    var s1 := run[|run| - 1];
    id := s1.live[k];
    run := VisitDeletes(run, k, now);
    run := Go(run, Load(w));
    run := Go(run, CompareAndSwap(w));
  }

  /** Landing an epoch past the cutoff in an aged-out series keeps its log admissible. */
  lemma StaysAdmissible(x: Series, e: Epoch, now: Time)
    requires SlotOrdered(x.log) && CountsFit(x.log) && Exact(x.ring, x.log)
    requires AgedOut(x.ring, now) && e >= Cutoff(now)
    ensures SlotOrdered(x.log + [e]) && CountsFit(x.log + [e])
  {
    forall n | 0 <= n < |x.log| ensures x.log[n] < e { AgedOutLogIsOld(x, now, n); }
    NewestIsNewest(x.log, e % SLOTS);
    CountPositive(x.log, e);
    OrderedSnoc(x.log, e);
    CountsFitSnoc(x.log, e);
  }

  lemma SeriesNowOk(run: seq<State>, k: CounterKey)
    requires Run(run) && Admissible(run[|run| - 1])
    ensures var x := SeriesNow(run[|run| - 1], k);
            SeriesOk(x) && Exact(x.ring, x.log) && SlotOrdered(x.log) && CountsFit(x.log)
  {
    var s := run[|run| - 1];
    InvAlong(run, |run| - 1);
    if k in s.live {
      assert SeriesOk(s.heap[s.live[k]]);
      ExactSeries(s, s, s.live[k]);
    } else {
      assert forall i | 0 <= i < SLOTS :: CellExact(EMPTY[i], [], i);
    }
  }

  lemma AdmissibleAfter(s0: State, s: State, id: nat)
    requires Admissible(s0) && |s0.heap| <= |s.heap| <= |s0.heap| + 1 && id < |s.heap|
    requires forall i | 0 <= i < |s0.heap| && i != id :: s.heap[i] == s0.heap[i]
    requires |s.heap| > |s0.heap| ==> id == |s0.heap|
    requires SlotOrdered(s.heap[id].log) && CountsFit(s.heap[id].log)
    ensures Admissible(s)
  {
  }

  lemma AgedOutRun(run0: seq<State>, w: nat, k: CounterKey, at: Time, now: Time) returns (run: seq<State>)
    requires Run(run0) && Admissible(run0[|run0| - 1]) && run0[|run0| - 1].gc.Resting?
    requires w < |run0[|run0| - 1].workers| && run0[|run0| - 1].workers[w].Idle?
    requires now > MAX_WINDOW_SECONDS - BUCKET_SECONDS && AgedOut(RingNow(run0[|run0| - 1], k), now)
    requires EpochOf(at) >= Cutoff(now)
    ensures Run(run) && run0 <= run && Admissible(run[|run| - 1])
    ensures LosesSome(run0[|run0| - 1], run[|run| - 1], k, at, now)
  {
    var s0 := run0[|run0| - 1];
    InvAlong(run0, |run0| - 1);
    SeriesNowOk(run0, k);
    var x := SeriesNow(s0, k);
    StaysAdmissible(x, EpochOf(at), now);
    var id;
    run, id := AgedOutLoses(run0, w, k, at, now);
    var s := run[|run| - 1];
    assert Loses(s0, s, k, at, now, id, |x.log|);
    AdmissibleAfter(s0, s, id);
  }

  lemma AgedOutCanLose(run0: seq<State>, w: nat, k: CounterKey, at: Time, now: Time)
    requires Run(run0) && Admissible(run0[|run0| - 1]) && run0[|run0| - 1].gc.Resting?
    requires w < |run0[|run0| - 1].workers| && run0[|run0| - 1].workers[w].Idle?
    requires now > MAX_WINDOW_SECONDS - BUCKET_SECONDS && AgedOut(RingNow(run0[|run0| - 1], k), now)
    requires EpochOf(at) >= Cutoff(now)
    ensures CanLose(run0, k, at, now)
  {
    var run := AgedOutRun(run0, w, k, at, now);
  }

  lemma LosingWasAged(run: seq<State>, m: nat, k: CounterKey, at: Time, now: Time)
    requires Run(run) && Admissible(run[|run| - 1]) && m < |run| && LosesSome(run[m], run[|run| - 1], k, at, now)
    ensures AgedOut(RingNow(run[m], k), now)
  {
    var id: nat, n: nat :| Loses(run[m], run[|run| - 1], k, at, now, id, n);
    ClockIs(run, m);
    EvictedWasAged(run, m, id);
    InvAlong(run, m);
  }

  lemma CanLoseWasAged(run0: seq<State>, k: CounterKey, at: Time, now: Time)
    requires run0 != [] && CanLose(run0, k, at, now)
    ensures AgedOut(RingNow(run0[|run0| - 1], k), now)
  {
    var run: seq<State> :| Run(run) && run0 <= run && Admissible(run[|run| - 1])
                           && LosesSome(run0[|run0| - 1], run[|run| - 1], k, at, now);
    assert run[|run0| - 1] == run0[|run0| - 1];
    LosingWasAged(run, |run0| - 1, k, at, now);
  }

  /** Exactly which increments the race can cost.  From every moment of an admissible run at which the collector
      rests and a worker is idle, an increment of a key at second `at` (recent enough to count at second `now`) can
      be lost to a visit at `now`, if and only if the key's series (an empty one if it has none) is aged out then. */
  lemma AtRiskIff(run0: seq<State>, w: nat, k: CounterKey, at: Time, now: Time)
    requires Run(run0) && Admissible(run0[|run0| - 1]) && run0[|run0| - 1].gc.Resting?
    requires w < |run0[|run0| - 1].workers| && run0[|run0| - 1].workers[w].Idle?
    requires now > MAX_WINDOW_SECONDS - BUCKET_SECONDS && EpochOf(at) >= Cutoff(now)
    ensures CanLose(run0, k, at, now) <==> AgedOut(RingNow(run0[|run0| - 1], k), now)
  {
    if AgedOut(RingNow(run0[|run0| - 1], k), now) { AgedOutCanLose(run0, w, k, at, now); }
    if CanLose(run0, k, at, now) { CanLoseWasAged(run0, k, at, now); }
  }

  /** For one, the very first increment of a key, at every second from 3660 on: the series is created, looks old to
      the collector, and is deleted before the increment lands. */
  lemma RaceIsReal(k: CounterKey, at: Time) returns (run: seq<State>, id: nat)
    requires at >= MAX_WINDOW_SECONDS + BUCKET_SECONDS
    ensures Run(run)
    ensures var s := run[|run| - 1];
            && |s.heap| == 1 && id == 0 && s.heap[0].key == k && s.heap[0].log == [EpochOf(at)]
            && 0 in s.evicted && s.evicted[0].now == at && k !in s.live
            && EpochOf(at) * BUCKET_SECONDS >= at - MAX_WINDOW_SECONDS
  {
    run := [State([], map[], [Idle], Resting, map[], 0)];
    EmptyAgesIff(at);
    run, id := AgedOutLoses(run, 0, k, at, at);
    assert [] + [EpochOf(at)] == [EpochOf(at)];
  }
}
