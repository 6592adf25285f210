/**
 Any number of workers incrementing one series through load and compare-and-swap
 steps, and any number of readers summing it slot by slot, in every interleaving.
 `log` records the landed epochs in the order of their successful swaps and `begun`
 the increments ever started, and a worker about to swap knows how long the log was when
 it loaded; the program holds none of these.
 */
module CounterInterleaving {
  import opened Words
  import opened CounterRing
  import opened CounterWindow

  datatype Pc = Idle | Loading(epoch: Epoch) | Swapping(epoch: Epoch, seen: Word, loadedAt: nat)

  /** A sum in progress: slots below `pos` are read; `start` is the log length at the first read. */
  datatype Scan = Scan(windowStart: int, pos: nat, start: nat, total: nat)

  datatype State = State(
    ring: Ring, workers: seq<Pc>, scans: seq<Scan>, log: seq<Epoch>, begun: multiset<Epoch>)

  datatype Action =
    | Begin(worker: nat, epoch: Epoch)
    | Load(worker: nat)
    | CompareAndSwap(worker: nat)
    | OpenScan(windowStart: int)
    | ReadSlot(scan: nat)

  ghost predicate Init(s: State) {
    && s.ring == EMPTY && s.log == [] && s.begun == multiset{} && s.scans == []
    && forall w | 0 <= w < |s.workers| :: s.workers[w] == Idle
  }

  predicate Enabled(s: State, a: Action) {
    match a
    case Begin(w, _) => w < |s.workers| && s.workers[w].Idle?
    case Load(w) => w < |s.workers| && s.workers[w].Loading?
    case CompareAndSwap(w) => w < |s.workers| && s.workers[w].Swapping?
    case OpenScan(_) => true
    case ReadSlot(r) => r < |s.scans| && s.scans[r].pos < SLOTS
  }

  function Apply(s: State, a: Action): State
    requires Enabled(s, a)
  {
    match a
    case Begin(w, e) =>
      s.(workers := s.workers[w := Loading(e)], begun := s.begun + multiset{e})
    case Load(w) =>
      var e := s.workers[w].epoch;
      s.(workers := s.workers[w := Swapping(e, s.ring[e % SLOTS], |s.log|)])
    case CompareAndSwap(w) =>
      var Swapping(e, seen, _) := s.workers[w];
      if s.ring[e % SLOTS] == seen then
        s.(ring := s.ring[e % SLOTS := Bumped(seen, e)], workers := s.workers[w := Idle], log := s.log + [e])
      else
        s.(workers := s.workers[w := Loading(e)])
    case OpenScan(from) =>
      s.(scans := s.scans + [Scan(from, 0, |s.log|, 0)])
    case ReadSlot(r) =>
      var Scan(from, pos, start, total) := s.scans[r];
      s.(scans := s.scans[r := Scan(from, pos + 1, if pos == 0 then |s.log| else start,
                                    total + Share(s.ring[pos], from))])
  }

  ghost predicate Next(s: State, s': State) {
    exists a :: Enabled(s, a) && s' == Apply(s, a)
  }

  ghost predicate Run(run: seq<State>) {
    && |run| > 0 && Init(run[0])
    && forall k | 0 <= k < |run| - 1 :: Next(run[k], run[k + 1])
  }

  // ---- every increment lands exactly once, atomically ----

  function Held(pc: Pc, e: Epoch): nat {
    if !pc.Idle? && pc.epoch == e then 1 else 0
  }

  /** How many started increments of epoch `e` have not landed yet. */
  function Pending(workers: seq<Pc>, e: Epoch): nat {
    if workers == [] then 0
    else Pending(workers[..|workers| - 1], e) + Held(workers[|workers| - 1], e)
  }

  lemma {:induction false} PendingUpdate(workers: seq<Pc>, w: nat, pc: Pc, e: Epoch)
    requires w < |workers|
    ensures Pending(workers[w := pc], e) == Pending(workers, e) - Held(workers[w], e) + Held(pc, e)
  {
    var n, updated := |workers| - 1, workers[w := pc];
    if w == n {
      assert updated[..n] == workers[..n];
    } else {
      assert updated[..n] == workers[..n][w := pc];
      PendingUpdate(workers[..n], w, pc, e);
    }
  }

  lemma {:induction false} NothingPendingAtFirst(workers: seq<Pc>, e: Epoch)
    requires forall w | 0 <= w < |workers| :: workers[w] == Idle
    ensures Pending(workers, e) == 0
  {
    if workers != [] { NothingPendingAtFirst(workers[..|workers| - 1], e); }
  }

  ghost predicate Conserved(s: State) {
    forall e: Epoch :: s.begun[e] == Count(s.log, e) + Pending(s.workers, e)
  }

  /** The ring is the atomic replay of the landing order, and landed plus pending is begun. */
  ghost predicate Linear(s: State) { s.ring == Replay(s.log) && Conserved(s) }

  lemma StepReplays(s: State, a: Action)
    requires s.ring == Replay(s.log) && Enabled(s, a)
    ensures Apply(s, a).ring == Replay(Apply(s, a).log) && s.log <= Apply(s, a).log
  {
    var s' := Apply(s, a);
    if s'.log != s.log {
      assert s'.log[..|s.log|] == s.log;
    }
  }

  lemma StepConserves(s: State, a: Action)
    requires Conserved(s) && Enabled(s, a)
    ensures Conserved(Apply(s, a))
  {
    var s' := Apply(s, a);
    forall e: Epoch ensures s'.begun[e] == Count(s'.log, e) + Pending(s'.workers, e) {
      assert s.begun[e] == Count(s.log, e) + Pending(s.workers, e);
      if a.Begin? || a.Load? || a.CompareAndSwap? {
        PendingUpdate(s.workers, a.worker, s'.workers[a.worker], e);
      }
      if s'.log != s.log {
        assert s'.log[..|s.log|] == s.log;
      }
    }
  }

  lemma LinearStep(s: State, s': State)
    requires Linear(s) && Next(s, s')
    ensures Linear(s') && s.log <= s'.log
  {
    var a :| Enabled(s, a) && s' == Apply(s, a);
    StepReplays(s, a);
    StepConserves(s, a);
  }

  lemma {:induction false} RunIsLinear(run: seq<State>, k: nat)
    requires Run(run) && k < |run|
    ensures Linear(run[k])
    ensures forall j | 0 <= j <= k :: run[j].log <= run[k].log
    decreases k
  {
    if k == 0 {
      forall e: Epoch ensures run[0].begun[e] == Count(run[0].log, e) + Pending(run[0].workers, e) {
        NothingPendingAtFirst(run[0].workers, e);
      }
    } else {
      RunIsLinear(run, k - 1);
      LinearStep(run[k - 1], run[k]);
      assert forall j | 0 <= j < k :: run[j].log <= run[k - 1].log;
    }
  }

  /** In every interleaving: nothing is lost or doubled, and while landings respect the skew bound and
      buckets stay below 2^32 each of the last sixty epochs has its exact count in its own slot. */
  lemma InterleavedExactness(run: seq<State>, e: Epoch)
    requires Run(run)
    ensures var s := run[|run| - 1];
            && s.begun[e] == Count(s.log, e) + Pending(s.workers, e)
            && (WithinSkew(s.log) && CountsFit(s.log) && Count(s.log, e) > 0
                && (forall k | 0 <= k < |s.log| :: s.log[k] < e + SLOTS)
                ==> SlotEpoch(s.ring[e % SLOTS]) == e && SlotCount(s.ring[e % SLOTS]) == Count(s.log, e))
  {
    var s := run[|run| - 1];
    RunIsLinear(run, |run| - 1);
    if WithinSkew(s.log) && CountsFit(s.log) && Count(s.log, e) > 0
       && forall k | 0 <= k < |s.log| :: s.log[k] < e + SLOTS {
      RecentEpochsExact(s.log, e);
    }
  }

  // ---- and every increment can land ----

  lemma Go(run: seq<State>, a: Action) returns (run': seq<State>)
    requires Run(run) && Enabled(run[|run| - 1], a)
    ensures Run(run') && run <= run' && |run'| == |run| + 1 && run'[|run'| - 1] == Apply(run[|run| - 1], a)
  {
    run' := run + [Apply(run[|run| - 1], a)];
    forall k | 0 <= k < |run'| - 1 ensures Next(run'[k], run'[k + 1]) {
      if k < |run| - 1 { assert Next(run[k], run[k + 1]); }
    }
  }

  /** An undisturbed increment lands in its first three steps, whatever ran before. */
  lemma SoloIncrement(run: seq<State>, w: nat, e: Epoch) returns (run': seq<State>)
    requires Run(run) && w < |run[|run| - 1].workers| && run[|run| - 1].workers[w].Idle?
    ensures Run(run') && run <= run' && |run'| == |run| + 3
    ensures var s, s' := run[|run| - 1], run'[|run'| - 1];
            && s'.ring == Land(s.ring, e) && s'.log == s.log + [e]
            && s'.workers == s.workers && s'.scans == s.scans
  {
    var s := run[|run| - 1];
    run' := Go(run, Begin(w, e));
    run' := Go(run', Load(w));
    run' := Go(run', CompareAndSwap(w));
    assert run'[|run'| - 1].workers == s.workers;
  }

  /** The landings since `from` leave slot `i` alone. */
  ghost predicate SlotUntouched(log: seq<Epoch>, from: nat, i: int) {
    forall k | from <= k < |log| :: log[k] % SLOTS != i
  }

  lemma {:induction false} UntouchedKeeps(log: seq<Epoch>, from: nat, i: int)
    requires from <= |log| && 0 <= i < SLOTS && SlotUntouched(log, from, i)
    ensures Replay(log)[i] == Replay(log[..from])[i]
  {
    if from == |log| {
      assert log[..from] == log;
    } else {
      var n := |log| - 1;
      assert log[..n][..from] == log[..from];
      UntouchedKeeps(log[..n], from, i);
    }
  }

  /** What a worker has seen is what its slot held when it loaded. */
  ghost predicate SeenOk(s: State) {
    forall w | 0 <= w < |s.workers| && s.workers[w].Swapping? ::
      && s.workers[w].loadedAt <= |s.log|
      && s.workers[w].seen == Replay(s.log[..s.workers[w].loadedAt])[s.workers[w].epoch % SLOTS]
  }

  lemma SeenStep(s: State, a: Action)
    requires s.ring == Replay(s.log) && SeenOk(s) && Enabled(s, a)
    ensures SeenOk(Apply(s, a))
  {
    var s' := Apply(s, a);
    StepReplays(s, a);
    forall w | 0 <= w < |s'.workers| && s'.workers[w].Swapping?
      ensures s'.workers[w].loadedAt <= |s'.log|
      ensures s'.workers[w].seen == Replay(s'.log[..s'.workers[w].loadedAt])[s'.workers[w].epoch % SLOTS]
    {
      var n := s'.workers[w].loadedAt;
      if a == Load(w) {
        assert s.log[..|s.log|] == s.log;
      } else {
        assert s'.log[..n] == s.log[..n];
      }
    }
  }

  lemma {:induction false} SeenAlong(run: seq<State>, k: nat)
    requires Run(run) && k < |run|
    ensures SeenOk(run[k])
  {
    if k > 0 {
      SeenAlong(run, k - 1);
      RunIsLinear(run, k - 1);
      assert Next(run[k - 1], run[k - 1 + 1]);
      var a :| Enabled(run[k - 1], a) && run[k] == Apply(run[k - 1], a);
      SeenStep(run[k - 1], a);
    }
  }

  lemma UntouchedLands(s: State, w: nat)
    requires s.ring == Replay(s.log) && SeenOk(s) && Enabled(s, CompareAndSwap(w))
    requires SlotUntouched(s.log, s.workers[w].loadedAt, s.workers[w].epoch % SLOTS)
    ensures |Apply(s, CompareAndSwap(w)).log| == |s.log| + 1
  {
    UntouchedKeeps(s.log, s.workers[w].loadedAt, s.workers[w].epoch % SLOTS);
  }

  /** Lock-freedom: in every run a swap fails only if another increment landed in the same slot since this
      worker's load; so whoever is delayed, someone else has made progress. */
  lemma FailedSwapMeansLanding(run: seq<State>, w: nat)
    requires Run(run) && Enabled(run[|run| - 1], CompareAndSwap(w))
    requires Apply(run[|run| - 1], CompareAndSwap(w)).log == run[|run| - 1].log
    ensures var s := run[|run| - 1];
            exists k :: && s.workers[w].loadedAt <= k < |s.log|
                        && s.log[k] % SLOTS == s.workers[w].epoch % SLOTS
  {
    var s := run[|run| - 1];
    RunIsLinear(run, |run| - 1);
    SeenAlong(run, |run| - 1);
    if SlotUntouched(s.log, s.workers[w].loadedAt, s.workers[w].epoch % SLOTS) { UntouchedLands(s, w); }
  }

  /** A failed swap loses nothing: the worker is back before its load, with the same epoch. */
  lemma FailedSwapRetries(s: State, w: nat)
    requires Enabled(s, CompareAndSwap(w)) && Apply(s, CompareAndSwap(w)).log == s.log
    ensures Apply(s, CompareAndSwap(w)) == s.(workers := s.workers[w := Loading(s.workers[w].epoch)])
  {
    var e := s.workers[w].epoch;
    assert |s.log + [e]| == |s.log| + 1;
  }

  /** An undisturbed sum reads every slot once and is the window sum of the ring. */
  lemma SoloSum(run: seq<State>, windowStart: int) returns (run': seq<State>)
    requires Run(run)
    ensures Run(run') && run <= run' && |run[|run| - 1].scans| < |run'[|run'| - 1].scans|
    ensures var s, scan := run[|run| - 1], run'[|run'| - 1].scans[|run[|run| - 1].scans|];
            scan == Scan(windowStart, SLOTS, |s.log|, RingSum(s.ring, windowStart))
  {
    var s := run[|run| - 1];
    var r := |s.scans|;
    run' := Go(run, OpenScan(windowStart));
    var asking := run'[|run'| - 1];
    var i := 0;
    while i < SLOTS
      invariant 0 <= i <= SLOTS && Run(run') && run <= run'
      invariant run'[|run'| - 1] ==
                asking.(scans := asking.scans[r := Scan(windowStart, i, |s.log|, SumBelow(s.ring, windowStart, i))])
    {
      run' := Go(run', ReadSlot(r));
      i := i + 1;
    }
  }

  // ---- sums that run alongside increments ----

  /** What the scan has so far lies between the in-window counts of the slots it read, at its first read
      and now. */
  ghost predicate Bracketed(scan: Scan, log: seq<Epoch>) {
    && scan.pos <= SLOTS && scan.start <= |log|
    && (scan.pos == 0 ==> scan.total == 0)
    && InWindowIn(log[..scan.start], scan.windowStart, 0, scan.pos) <= scan.total
    && scan.total <= InWindowIn(log, scan.windowStart, 0, scan.pos)
  }

  lemma BracketedLater(scan: Scan, log: seq<Epoch>, log': seq<Epoch>)
    requires Bracketed(scan, log) && log <= log'
    ensures Bracketed(scan, log')
  {
    assert log'[..|log|] == log;
    assert log'[..scan.start] == log[..scan.start];
    InWindowGrows(log', |log|, scan.windowStart, 0, scan.pos);
  }

  lemma BracketedRead(s: State, r: nat)
    requires s.ring == Replay(s.log) && Exact(s.ring, s.log)
    requires r < |s.scans| && s.scans[r].pos < SLOTS
    requires Bracketed(s.scans[r], s.log) && Recent(s.log, s.scans[r].windowStart)
    ensures Bracketed(Apply(s, ReadSlot(r)).scans[r], s.log)
  {
    var Scan(from, pos, start0, total) := s.scans[r];
    var start := if pos == 0 then |s.log| else start0;
    assert CellExact(s.ring[pos], s.log, pos);
    ShareIsClass(s.ring[pos], s.log, from, pos);
    InWindowSplits(s.log, from, 0, pos, pos + 1);
    InWindowSplits(s.log[..start], from, 0, pos, pos + 1);
    InWindowGrows(s.log, start, from, pos, pos + 1);
    InWindowEmptyRange(s.log[..start], from, 0);
  }

  lemma ExactAlong(log: seq<Epoch>, last: seq<Epoch>)
    requires log <= last && SlotOrdered(last) && CountsFit(last)
    ensures Exact(Replay(log), log)
  {
    ExactIff(last);
    assert last[..|log|] == log;
  }

  lemma ScanStep(s: State, s': State, r: nat)
    requires Next(s, s') && s.log <= s'.log && s.ring == Replay(s.log) && Exact(s.ring, s.log)
    requires r < |s'.scans| && Recent(s.log, s'.scans[r].windowStart)
    requires r < |s.scans| ==> Bracketed(s.scans[r], s.log)
    ensures Bracketed(s'.scans[r], s'.log)
    ensures r < |s.scans| ==> s.scans[r].windowStart == s'.scans[r].windowStart
  {
    var a :| Enabled(s, a) && s' == Apply(s, a);
    if r >= |s.scans| {
      InWindowEmptyRange(s.log, s'.scans[r].windowStart, 0);
      assert s.log[..|s.log|] == s.log;
    } else if a == ReadSlot(r) {
      BracketedRead(s, r);
    } else {
      assert s'.scans[r] == s.scans[r];
      BracketedLater(s.scans[r], s.log, s'.log);
    }
  }

  lemma ScanKeepsWindow(s: State, s': State, r: nat)
    requires Next(s, s') && r < |s.scans|
    ensures r < |s'.scans| && s'.scans[r].windowStart == s.scans[r].windowStart
  {
  }

  lemma ExactBefore(run: seq<State>, k: nat, last: seq<Epoch>)
    requires Run(run) && 0 < k < |run| && run[k].log <= last
    requires SlotOrdered(last) && CountsFit(last)
    ensures Next(run[k - 1], run[k]) && run[k - 1].log <= run[k].log && run[k - 1].log <= last
    ensures run[k - 1].ring == Replay(run[k - 1].log) && Exact(run[k - 1].ring, run[k - 1].log)
  {
    RunIsLinear(run, k - 1);
    assert Next(run[k - 1], run[k - 1 + 1]);
    LinearStep(run[k - 1], run[k]);
    ExactAlong(run[k - 1].log, last);
  }

  lemma RecentBefore(log: seq<Epoch>, last: seq<Epoch>, windowStart: int)
    requires log <= last && Recent(last, windowStart)
    ensures Recent(log, windowStart)
  {
    assert forall k | 0 <= k < |log| :: log[k] == last[k];
  }

  /** A scan stays bracketed at every moment of a run whose final log is `last`. */
  lemma {:induction false} ScanBracketed(run: seq<State>, k: nat, r: nat, last: seq<Epoch>)
    requires Run(run) && k < |run| && run[k].log <= last
    requires SlotOrdered(last) && CountsFit(last)
    requires r < |run[k].scans| && Recent(last, run[k].scans[r].windowStart)
    ensures Bracketed(run[k].scans[r], run[k].log)
    decreases k
  {
    if k > 0 {
      ExactBefore(run, k, last);
      RecentBefore(run[k - 1].log, last, run[k].scans[r].windowStart);
      if r < |run[k - 1].scans| {
        ScanKeepsWindow(run[k - 1], run[k], r);
        ScanBracketed(run, k - 1, r, last);
      }
      ScanStep(run[k - 1], run[k], r);
    }
  }

  /** A sum that runs concurrently with increments returns a value between the exact in-window counts at
      its first slot read and at its end, for every window that starts after the bucket sixty epochs
      before the newest landed one. */
  lemma ConcurrentSumBracketed(run: seq<State>, r: nat)
    requires Run(run)
    requires var s := run[|run| - 1];
             && r < |s.scans| && s.scans[r].pos == SLOTS
             && SlotOrdered(s.log) && CountsFit(s.log) && Recent(s.log, s.scans[r].windowStart)
    ensures var s := run[|run| - 1]; var scan := s.scans[r];
            && scan.start <= |s.log|
            && InWindow(s.log[..scan.start], scan.windowStart) <= scan.total <= InWindow(s.log, scan.windowStart)
  {
    var s := run[|run| - 1];
    ScanBracketed(run, |run| - 1, r, s.log);
  }
}
