/**
 What a window sum over the ring means in terms of the history of increments.
 */
module CounterWindow {
  import opened Words
  import opened CounterRing

  /** What one slot adds to a sum over buckets that start at or after `windowStart`. */
  function Share(w: Word, windowStart: int): nat {
    if SlotEpoch(w) * BUCKET_SECONDS >= windowStart then SlotCount(w) else 0
  }

  function SumBelow(ring: Ring, windowStart: int, n: nat): nat
    requires n <= SLOTS
  {
    if n == 0 then 0 else SumBelow(ring, windowStart, n - 1) + Share(ring[n - 1], windowStart)
  }

  function RingSum(ring: Ring, windowStart: int): nat { SumBelow(ring, windowStart, SLOTS) }

  // ---- the reference: counting log entries whose bucket starts in the window ----

  predicate InClass(e: Epoch, windowStart: int, lo: int, hi: int) {
    e * BUCKET_SECONDS >= windowStart && lo <= e % SLOTS < hi
  }

  /** Log entries in the window whose slot lies in [lo, hi). */
  function InWindowIn(log: seq<Epoch>, windowStart: int, lo: int, hi: int): nat {
    if log == [] then 0
    else
      InWindowIn(log[..|log| - 1], windowStart, lo, hi) +
      if InClass(log[|log| - 1], windowStart, lo, hi) then 1 else 0
  }

  function InWindow(log: seq<Epoch>, windowStart: int): nat { InWindowIn(log, windowStart, 0, SLOTS) }

  lemma {:induction false} InWindowSplits(log: seq<Epoch>, windowStart: int, lo: int, mid: int, hi: int)
    requires lo <= mid <= hi
    ensures InWindowIn(log, windowStart, lo, hi) ==
            InWindowIn(log, windowStart, lo, mid) + InWindowIn(log, windowStart, mid, hi)
  {
    if log != [] { InWindowSplits(log[..|log| - 1], windowStart, lo, mid, hi); }
  }

  lemma {:induction false} InWindowEmptyRange(log: seq<Epoch>, windowStart: int, i: int)
    ensures InWindowIn(log, windowStart, i, i) == 0
  {
    if log != [] { InWindowEmptyRange(log[..|log| - 1], windowStart, i); }
  }

  lemma {:induction false} InWindowGrows(log: seq<Epoch>, n: nat, windowStart: int, lo: int, hi: int)
    requires n <= |log|
    ensures InWindowIn(log[..n], windowStart, lo, hi) <= InWindowIn(log, windowStart, lo, hi)
  {
    if n == |log| {
      assert log[..n] == log;
    } else {
      var init := log[..|log| - 1];
      assert log[..n] == init[..n];
      InWindowGrows(init, n, windowStart, lo, hi);
    }
  }

  /** The in-window part of a slot's class is one epoch, or two. */
  lemma {:induction false} ClassIsEpochs(log: seq<Epoch>, windowStart: int, i: int, a: int, b: int)
    requires a != b
    requires forall k | 0 <= k < |log| :: InClass(log[k], windowStart, i, i + 1) <==> log[k] == a || log[k] == b
    ensures InWindowIn(log, windowStart, i, i + 1) == Count(log, a) + Count(log, b)
  {
    if log != [] {
      var init := log[..|log| - 1];
      assert forall k | 0 <= k < |init| :: init[k] == log[k];
      ClassIsEpochs(init, windowStart, i, a, b);
    }
  }

  /** Every landed epoch of slot `i` is less than sixty epochs past the window start. */
  ghost predicate ClassRecent(log: seq<Epoch>, windowStart: int, i: int) {
    forall k | 0 <= k < |log| && log[k] % SLOTS == i :: log[k] * BUCKET_SECONDS - MAX_WINDOW_SECONDS < windowStart
  }

  ghost predicate Recent(log: seq<Epoch>, windowStart: int) {
    forall k | 0 <= k < |log| :: log[k] * BUCKET_SECONDS - MAX_WINDOW_SECONDS < windowStart
  }

  lemma {:induction false} CountOfAbsent(log: seq<Epoch>, e: int)
    requires e < 0
    ensures Count(log, e) == 0
  {
    CountPositive(log, e);
  }

  /** An exact slot contributes exactly the in-window increments of its class. */
  lemma ShareIsClass(w: Word, log: seq<Epoch>, windowStart: int, i: int)
    requires 0 <= i < SLOTS && CellExact(w, log, i) && ClassRecent(log, windowStart, i)
    ensures Share(w, windowStart) == InWindowIn(log, windowStart, i, i + 1)
  {
    var m := Newest(log, i);
    NewestIsNewest(log, i);
    CountOfAbsent(log, -1);
    CountOfAbsent(log, -2);
    if m >= 0 && m * BUCKET_SECONDS >= windowStart {
      forall k | 0 <= k < |log|
        ensures InClass(log[k], windowStart, i, i + 1) <==> log[k] == m || log[k] == -1
      {
      }
      ClassIsEpochs(log, windowStart, i, m, -1);
    } else {
      ClassIsEpochs(log, windowStart, i, -1, -2);
    }
  }

  lemma {:induction false} SumIsWindow(ring: Ring, log: seq<Epoch>, windowStart: int, n: nat)
    requires n <= SLOTS && Exact(ring, log)
    requires forall i | 0 <= i < n :: ClassRecent(log, windowStart, i)
    ensures SumBelow(ring, windowStart, n) == InWindowIn(log, windowStart, 0, n)
  {
    InWindowEmptyRange(log, windowStart, 0);
    if n > 0 {
      SumIsWindow(ring, log, windowStart, n - 1);
      assert CellExact(ring[n - 1], log, n - 1);
      ShareIsClass(ring[n - 1], log, windowStart, n - 1);
      InWindowSplits(log, windowStart, 0, n - 1, n);
    }
  }

  /** The bucket that a 3600-second window loses on the minute: it shares a slot with the current one. */
  function Lost(log: seq<Epoch>, now: Time, window: int): nat {
    if window == MAX_WINDOW_SECONDS && now % BUCKET_SECONDS == 0 && Count(log, EpochOf(now)) > 0
    then Count(log, EpochOf(now) - SLOTS)
    else 0
  }

  ghost predicate NotLater(log: seq<Epoch>, now: Time) {
    forall k | 0 <= k < |log| :: log[k] <= EpochOf(now)
  }

  /** The slot of the current minute, on the minute, for the longest window. */
  lemma SharedSlot(w: Word, log: seq<Epoch>, now: Time, i: int)
    requires now % BUCKET_SECONDS == 0 && i == EpochOf(now) % SLOTS
    requires NotLater(log, now) && CellExact(w, log, i) && Count(log, EpochOf(now)) > 0
    ensures Share(w, now - MAX_WINDOW_SECONDS) ==
            InWindowIn(log, now - MAX_WINDOW_SECONDS, i, i + 1) - Count(log, EpochOf(now) - SLOTS)
  {
    var e := EpochOf(now);
    assert Newest(log, i) == e by {
      NewestIsNewest(log, i);
      CountPositive(log, e);
    }
    forall k | 0 <= k < |log|
      ensures InClass(log[k], now - MAX_WINDOW_SECONDS, i, i + 1) <==> log[k] == e || log[k] == e - SLOTS
    {
      SharedClass(log[k], now, i);
    }
    ClassIsEpochs(log, now - MAX_WINDOW_SECONDS, i, e, e - SLOTS);
  }

  /** On the minute, the in-window epochs of the current slot are the current one and the one an hour before. */
  lemma SharedClass(x: Epoch, now: Time, i: int)
    requires now % BUCKET_SECONDS == 0 && i == EpochOf(now) % SLOTS && x <= EpochOf(now)
    ensures InClass(x, now - MAX_WINDOW_SECONDS, i, i + 1) <==> x == EpochOf(now) || x == EpochOf(now) - SLOTS
  {
  }

  /** The sum of a window, for every history the ring represents exactly: the increments whose bucket
      starts inside the window, less the one bucket that a full-hour window loses on the minute. */
  lemma WindowSum(ring: Ring, log: seq<Epoch>, now: Time, window: int)
    requires Exact(ring, log) && NotLater(log, now) && 1 <= window <= MAX_WINDOW_SECONDS
    ensures Lost(log, now, window) <= InWindow(log, now - window)
    ensures RingSum(ring, now - window) == InWindow(log, now - window) - Lost(log, now, window)
  {
    var start, e := now - window, EpochOf(now);
    CountPositive(log, e);
    if window == MAX_WINDOW_SECONDS && now % BUCKET_SECONDS == 0 && Count(log, e) > 0 {
      var i := e % SLOTS;
      SumIsWindow(ring, log, start, i);
      assert CellExact(ring[i], log, i);
      SharedSlot(ring[i], log, now, i);
      SumSuffix(ring, log, start, i + 1, SLOTS);
      InWindowSplits(log, start, 0, i, SLOTS);
      InWindowSplits(log, start, i, i + 1, SLOTS);
      assert SumBelow(ring, start, i + 1) == SumBelow(ring, start, i) + Share(ring[i], start);
    } else {
      assert Recent(log, start);
      SumIsWindow(ring, log, start, SLOTS);
    }
  }

  lemma {:induction false} SumSuffix(ring: Ring, log: seq<Epoch>, windowStart: int, lo: nat, n: nat)
    requires lo <= n <= SLOTS && Exact(ring, log)
    requires forall i | lo <= i < n :: ClassRecent(log, windowStart, i)
    ensures SumBelow(ring, windowStart, n) == SumBelow(ring, windowStart, lo) + InWindowIn(log, windowStart, lo, n)
  {
    InWindowEmptyRange(log, windowStart, lo);
    if n > lo {
      SumSuffix(ring, log, windowStart, lo, n - 1);
      assert CellExact(ring[n - 1], log, n - 1);
      ShareIsClass(ring[n - 1], log, windowStart, n - 1);
      InWindowSplits(log, windowStart, lo, n - 1, n);
    }
  }

  // ---- one increment more ----

  /** What an increment pushes out of the answer: the full-hour bucket in whose slot it is the first. */
  function Displaced(log: seq<Epoch>, e: Epoch, now: Time, window: int): nat {
    if window == MAX_WINDOW_SECONDS && now % BUCKET_SECONDS == 0 && e == EpochOf(now) && Count(log, e) == 0
    then Count(log, e - SLOTS)
    else 0
  }

  lemma InWindowSnoc(log: seq<Epoch>, e: Epoch, windowStart: int)
    ensures InWindow(log + [e], windowStart) ==
            InWindow(log, windowStart) + if e * BUCKET_SECONDS >= windowStart then 1 else 0
  {
    assert (log + [e])[..|log|] == log;
  }

  lemma CountSnoc(log: seq<Epoch>, e: Epoch, x: int)
    ensures Count(log + [e], x) == Count(log, x) + if e == x then 1 else 0
  {
    assert (log + [e])[..|log|] == log;
  }

  lemma LostSnoc(log: seq<Epoch>, e: Epoch, now: Time, window: int)
    requires e >= Newest(log, e % SLOTS)
    ensures Lost(log + [e], now, window) == Lost(log, now, window) + Displaced(log, e, now, window)
  {
    CountSnoc(log, e, EpochOf(now));
    CountSnoc(log, e, EpochOf(now) - SLOTS);
    if e == EpochOf(now) - SLOTS {
      NewestIsNewest(log, e % SLOTS);
      CountPositive(log, EpochOf(now));
    }
  }

  /** What one more increment does to an exact answer: it is in it if and only if its own bucket starts in the
      window, however recent it is. */
  lemma OneMore(ring: Ring, ring': Ring, log: seq<Epoch>, e: Epoch, now: Time, window: int)
    requires Exact(ring, log) && Exact(ring', log + [e]) && NotLater(log + [e], now)
        && 1 <= window <= MAX_WINDOW_SECONDS
    requires e >= Newest(log, e % SLOTS)
    ensures RingSum(ring', now - window) + Displaced(log, e, now, window) ==
            RingSum(ring, now - window) + if e * BUCKET_SECONDS >= now - window then 1 else 0
    ensures e * BUCKET_SECONDS >= now - window ==> RingSum(ring', now - window) > 0
  {
    var log' := log + [e];
    assert NotLater(log, now) by {
      assert forall k | 0 <= k < |log| :: log'[k] == log[k];
    }
    InWindowSnoc(log, e, now - window);
    LostSnoc(log, e, now, window);
    WindowSum(ring, log, now, window);
    WindowSum(ring', log', now, window);
    if e * BUCKET_SECONDS >= now - window { SomeLeft(log', now, window); }
  }

  /** The lost bucket is never all there is. */
  lemma SomeLeft(log: seq<Epoch>, now: Time, window: int)
    requires InWindow(log, now - window) > 0
    ensures InWindow(log, now - window) > Lost(log, now, window)
  {
    if Lost(log, now, window) > 0 {
      TwoBuckets(log, now - window, EpochOf(now), EpochOf(now) - SLOTS);
    }
  }

  lemma {:induction false} TwoBuckets(log: seq<Epoch>, windowStart: int, a: int, b: int)
    requires a != b && a * BUCKET_SECONDS >= windowStart && b * BUCKET_SECONDS >= windowStart
    ensures Count(log, a) + Count(log, b) <= InWindow(log, windowStart)
  {
    if log != [] { TwoBuckets(log[..|log| - 1], windowStart, a, b); }
  }

  /** A window read at once misses its own increment at some second of the minute, unless it is 59 or longer. */
  lemma AlwaysIncludedIff(window: int)
    requires 1 <= window <= MAX_WINDOW_SECONDS
    ensures (forall now: Time :: EpochOf(now) * BUCKET_SECONDS >= now - window) <==> window >= BUCKET_SECONDS - 1
  {
    if window < BUCKET_SECONDS - 1 {
      var now: Time := 3659;
      assert !(EpochOf(now) * BUCKET_SECONDS >= now - window);
    }
  }

  // ---- in seconds ----

  function Epochs(times: seq<Time>): (log: seq<Epoch>)
    ensures |log| == |times| && forall k | 0 <= k < |times| :: log[k] == EpochOf(times[k])
  {
    if times == [] then [] else Epochs(times[..|times| - 1]) + [EpochOf(times[|times| - 1])]
  }

  function AtOrAfter(times: seq<Time>, from: int): nat {
    if times == [] then 0
    else AtOrAfter(times[..|times| - 1], from) + if times[|times| - 1] >= from then 1 else 0
  }

  lemma {:induction false} BucketsBracketSeconds(times: seq<Time>, windowStart: int)
    ensures AtOrAfter(times, windowStart + BUCKET_SECONDS) <= InWindow(Epochs(times), windowStart)
            <= AtOrAfter(times, windowStart)
  {
    if times != [] {
      var init := times[..|times| - 1];
      BucketsBracketSeconds(init, windowStart);
      assert Epochs(times)[..|init|] == Epochs(init);
    }
  }

  /** The lower bracket holds even without the bucket that starts exactly at the window start. */
  lemma {:induction false} EdgeBucketIsOutside(times: seq<Time>, windowStart: int, edge: int)
    requires edge * BUCKET_SECONDS == windowStart
    ensures AtOrAfter(times, windowStart + BUCKET_SECONDS) + Count(Epochs(times), edge)
            <= InWindow(Epochs(times), windowStart)
  {
    if times != [] {
      var init := times[..|times| - 1];
      EdgeBucketIsOutside(init, windowStart, edge);
      assert Epochs(times)[..|init|] == Epochs(init);
    }
  }

  /** The lower bracket holds without the bucket that a full hour loses. */
  lemma LostIsOutside(times: seq<Time>, now: Time, window: int)
    ensures Lost(Epochs(times), now, window) == 0
            || AtOrAfter(times, now - window + BUCKET_SECONDS) + Lost(Epochs(times), now, window)
               <= InWindow(Epochs(times), now - window)
  {
    if window == MAX_WINDOW_SECONDS && now % BUCKET_SECONDS == 0 {
      EdgeBucketIsOutside(times, now - window, EpochOf(now) - SLOTS);
    }
  }

  lemma ReplayExact(log: seq<Epoch>)
    requires SlotOrdered(log) && CountsFit(log)
    ensures Exact(Replay(log), log)
  {
    ExactIff(log);
    ExactNow(log);
  }

  /** The documented contract of counter(): exact up to one bucket width at the old end of the window,
      for every clock reading, every window from 1 to 3600 seconds and every history the ring holds. */
  lemma WindowSumInSeconds(times: seq<Time>, now: Time, window: int)
    requires SlotOrdered(Epochs(times)) && CountsFit(Epochs(times))
    requires forall k | 0 <= k < |times| :: times[k] <= now
    requires 1 <= window <= MAX_WINDOW_SECONDS
    ensures AtOrAfter(times, now - window + BUCKET_SECONDS)
            <= RingSum(Replay(Epochs(times)), now - window)
            <= AtOrAfter(times, now - window)
  {
    var log, start := Epochs(times), now - window;
    assert NotLater(log, now);
    ReplayExact(log);
    WindowSum(Replay(log), log, now, window);
    BucketsBracketSeconds(times, start);
    LostIsOutside(times, now, window);
  }

  /** The caller's clock can make the hour-long window drop a whole bucket; it happens exactly then. */
  lemma FullHourLosesABucket(ring: Ring, log: seq<Epoch>, now: Time, window: int)
    requires Exact(ring, log) && NotLater(log, now) && 1 <= window <= MAX_WINDOW_SECONDS
    ensures RingSum(ring, now - window) == InWindow(log, now - window) <==>
            !(window == MAX_WINDOW_SECONDS && now % BUCKET_SECONDS == 0
              && Count(log, EpochOf(now)) > 0 && Count(log, EpochOf(now) - SLOTS) > 0)
  {
    WindowSum(ring, log, now, window);
  }
}
