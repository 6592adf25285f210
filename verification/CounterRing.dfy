/**
 One sliding-window counter series: a ring of sixty 64-bit words, each packing a
 minute epoch (high half) and a count (low half).  The reference is the plain log
 of landed epochs; `ExactIff` says exactly for which logs the ring agrees with it.
 */
module CounterRing {
  import opened Words

  const BUCKET_SECONDS := 60
  const MAX_WINDOW_SECONDS := 3600
  const SLOTS := 60
  const HALF := 0x1_0000_0000

  type Epoch = e: int | 0 <= e < 0x1_0000_0000
  type Ring = s: seq<Word> | |s| == 60 witness Zeros(60)

  /** Clock readings whose minute fits the 32 epoch bits (up to the year 10136). */
  type Time = t: int | 0 <= t < 60 * 0x1_0000_0000

  function SlotEpoch(w: Word): Epoch { w / HALF }

  function SlotCount(w: Word): nat { w % HALF }

  function EpochOf(now: Time): Epoch { now / BUCKET_SECONDS }

  /** The word a successful compare-and-swap installs over `seen`; the sum wraps at 64 bits. */
  function Bumped(seen: Word, e: Epoch): Word {
    if SlotEpoch(seen) == e then (seen + 1) % WORDS else e * HALF + 1
  }

  function Zeros(n: nat): (s: seq<Word>)
    ensures |s| == n && forall i | 0 <= i < n :: s[i] == 0
  {
    if n == 0 then [] else Zeros(n - 1) + [0]
  }

  /** A new series: every slot reads as epoch 0 with count 0. */
  const EMPTY: Ring := Zeros(60)

  function Land(ring: Ring, e: Epoch): Ring {
    ring[e % SLOTS := Bumped(ring[e % SLOTS], e)]
  }

  /** The ring after the landed increments of `log`, oldest first. */
  function Replay(log: seq<Epoch>): Ring {
    if log == [] then EMPTY else Land(Replay(log[..|log| - 1]), log[|log| - 1])
  }

  // ---- the reference: counting in the log ----

  function Count(log: seq<Epoch>, e: int): nat {
    if log == [] then 0 else Count(log[..|log| - 1], e) + if log[|log| - 1] == e then 1 else 0
  }

  /** The newest landed epoch that uses slot `i`, or -1. */
  function Newest(log: seq<Epoch>, i: int): int {
    if log == [] then -1
    else
      var last, m := log[|log| - 1], Newest(log[..|log| - 1], i);
      if last % SLOTS == i && last > m then last else m
  }

  ghost predicate CellExact(w: Word, log: seq<Epoch>, i: int) {
    var m := Newest(log, i);
    if m < 0 then w == 0 else SlotEpoch(w) == m && SlotCount(w) == Count(log, m)
  }

  /** Every slot holds its newest epoch and that epoch's exact count. */
  ghost predicate Exact(ring: Ring, log: seq<Epoch>) {
    forall i | 0 <= i < SLOTS :: CellExact(ring[i], log, i)
  }

  ghost predicate AlwaysExact(log: seq<Epoch>) {
    forall n | 0 <= n <= |log| :: Exact(Replay(log[..n]), log[..n])
  }

  /** No increment lands behind a newer epoch of its own slot. */
  ghost predicate SlotOrdered(log: seq<Epoch>) {
    forall j, k | 0 <= j < k < |log| && log[j] % SLOTS == log[k] % SLOTS :: log[j] <= log[k]
  }

  ghost predicate CountsFit(log: seq<Epoch>) {
    forall k | 0 <= k < |log| :: Count(log, log[k]) < HALF
  }

  /** No increment lands 60 or more epochs behind one that landed earlier. */
  ghost predicate WithinSkew(log: seq<Epoch>) {
    forall j, k | 0 <= j < k < |log| :: log[j] < log[k] + SLOTS
  }

  lemma {:induction false} NewestIsNewest(log: seq<Epoch>, i: int)
    ensures Newest(log, i) == -1 || (Newest(log, i) % SLOTS == i && Count(log, Newest(log, i)) > 0)
    ensures forall k | 0 <= k < |log| && log[k] % SLOTS == i :: log[k] <= Newest(log, i)
    ensures Newest(log, i) >= 0 ==> exists k :: 0 <= k < |log| && log[k] == Newest(log, i)
  {
    if log != [] {
      var init := log[..|log| - 1];
      NewestIsNewest(init, i);
      if Newest(log, i) == Newest(init, i) && Newest(init, i) >= 0 {
        var k :| 0 <= k < |init| && init[k] == Newest(init, i);
        assert log[k] == Newest(log, i);
      }
    }
  }

  lemma {:induction false} CountPositive(log: seq<Epoch>, e: int)
    ensures Count(log, e) > 0 <==> exists k :: 0 <= k < |log| && log[k] == e
  {
    if log != [] {
      var init := log[..|log| - 1];
      CountPositive(init, e);
      if Count(init, e) > 0 {
        var k :| 0 <= k < |init| && init[k] == e;
        assert log[k] == e;
      }
      if k :| 0 <= k < |log| && log[k] == e {
        if k < |init| { assert init[k] == e; }
      }
    }
  }

  /** One landing keeps exactness precisely when it is not behind its slot and its count still fits. */
  lemma LandExactIff(ring: Ring, log: seq<Epoch>, e: Epoch)
    requires Exact(ring, log)
    ensures Exact(Land(ring, e), log + [e]) <==>
            e >= Newest(log, e % SLOTS) && Count(log, e) + 1 < HALF
  {
    var log', i := log + [e], e % SLOTS;
    assert log'[..|log|] == log;
    NewestIsNewest(log, i);
    CountPositive(log, e);
    var w := ring[i];
    assert CellExact(w, log, i);
    assert forall j | 0 <= j < SLOTS && j != i :: Newest(log', j) == Newest(log, j);
    forall j | 0 <= j < SLOTS && j != i
      ensures CellExact(Land(ring, e)[j], log', j)
    {
      NewestIsNewest(log, j);
      assert CellExact(ring[j], log, j);
    }
    assert Exact(Land(ring, e), log') <==> CellExact(Bumped(w, e), log', i) by {
      assert Land(ring, e)[i] == Bumped(w, e);
    }
    BumpedCell(w, e);
    if e < Newest(log, i) {
      assert Newest(log', i) == Newest(log, i);
    } else {
      assert Newest(log', i) == e;
    }
  }

  lemma BumpedCell(w: Word, e: Epoch)
    ensures SlotEpoch(w) != e ==> SlotEpoch(Bumped(w, e)) == e && SlotCount(Bumped(w, e)) == 1
    ensures SlotEpoch(w) == e && SlotCount(w) + 1 < HALF ==>
              SlotEpoch(Bumped(w, e)) == e && SlotCount(Bumped(w, e)) == SlotCount(w) + 1
    ensures SlotEpoch(w) == e && SlotCount(w) + 1 == HALF ==> SlotEpoch(Bumped(w, e)) != e
  {
  }

  lemma AlwaysExactSnoc(log: seq<Epoch>, e: Epoch)
    ensures AlwaysExact(log + [e]) <==> AlwaysExact(log) && Exact(Replay(log + [e]), log + [e])
  {
    var log' := log + [e];
    assert forall n | 0 <= n <= |log| :: log'[..n] == log[..n];
    assert log'[..|log'|] == log';
  }

  lemma ExactNow(log: seq<Epoch>)
    requires AlwaysExact(log)
    ensures Exact(Replay(log), log)
  {
    assert log[..|log|] == log;
  }

  /** The exactness law of the ring: it agrees with the log at every moment if and only if no landing
      falls behind a newer epoch of its own slot and no bucket reaches 2^32. */
  lemma {:induction false} ExactIff(log: seq<Epoch>)
    ensures AlwaysExact(log) <==> SlotOrdered(log) && CountsFit(log)
  {
    if log == [] {
      assert forall i | 0 <= i < SLOTS :: CellExact(EMPTY[i], [], i);
    } else {
      var init, e := log[..|log| - 1], log[|log| - 1];
      assert log == init + [e];
      ExactIff(init);
      AlwaysExactSnoc(init, e);
      OrderedSnoc(init, e);
      CountsFitSnoc(init, e);
      if AlwaysExact(init) {
        ExactNow(init);
        LandExactIff(Replay(init), init, e);
      }
    }
  }

  lemma OrderedSnoc(log: seq<Epoch>, e: Epoch)
    ensures SlotOrdered(log + [e]) <==> SlotOrdered(log) && e >= Newest(log, e % SLOTS)
  {
    NewestIsNewest(log, e % SLOTS);
    var log' := log + [e];
    if SlotOrdered(log') {
      assert forall k | 0 <= k < |log| :: log[k] == log'[k];
      if Newest(log, e % SLOTS) >= 0 {
        var k :| 0 <= k < |log| && log[k] == Newest(log, e % SLOTS);
        assert log'[k] % SLOTS == log'[|log|] % SLOTS;
      }
    }
  }

  lemma CountsFitSnoc(log: seq<Epoch>, e: Epoch)
    ensures CountsFit(log + [e]) <==> CountsFit(log) && Count(log, e) + 1 < HALF
  {
    var log' := log + [e];
    assert log'[..|log|] == log;
    CountPositive(log, e);
    if CountsFit(log') {
      forall k | 0 <= k < |log| ensures Count(log, log[k]) < HALF {
        assert log'[k] == log[k];
      }
      assert log'[|log|] == e;
    }
    if CountsFit(log) && Count(log, e) + 1 < HALF {
      forall k | 0 <= k < |log'| ensures Count(log', log'[k]) < HALF {
        if k < |log| { assert log'[k] == log[k]; }
      }
    }
  }

  lemma SkewIsOrdered(log: seq<Epoch>)
    requires WithinSkew(log)
    ensures SlotOrdered(log)
  {
  }

  lemma SameSlotSameEpoch(log: seq<Epoch>, e: Epoch)
    requires Count(log, e) > 0
    requires forall k | 0 <= k < |log| :: log[k] < e + SLOTS
    ensures Newest(log, e % SLOTS) == e
  {
    NewestIsNewest(log, e % SLOTS);
    CountPositive(log, e);
  }

  /** The bound the program relies on: with the skew bound, each of the last sixty epochs that landed
      anything has its own epoch and its exact count in its slot. */
  lemma RecentEpochsExact(log: seq<Epoch>, e: Epoch)
    requires WithinSkew(log) && CountsFit(log)
    requires Count(log, e) > 0
    requires forall k | 0 <= k < |log| :: log[k] < e + SLOTS
    ensures SlotEpoch(Replay(log)[e % SLOTS]) == e
    ensures SlotCount(Replay(log)[e % SLOTS]) == Count(log, e)
  {
    var i := e % SLOTS;
    assert CellExact(Replay(log)[i], log, i) by {
      SkewIsOrdered(log);
      ExactIff(log);
      ExactNow(log);
    }
    SameSlotSameEpoch(log, e);
  }

  /** Sixty epochs of lateness is one too many: after any history, the landed minute is overwritten. */
  lemma SkewBoundIsTight(log: seq<Epoch>, e: Epoch)
    requires Count(log, e + SLOTS) > 0 && SlotEpoch(Replay(log)[e % SLOTS]) == e + SLOTS
    ensures SlotEpoch(Replay(log + [e])[e % SLOTS]) == e && !AlwaysExact(log + [e])
  {
    assert (log + [e])[..|log|] == log;
    BumpedCell(Replay(log)[e % SLOTS], e);
    LateIsUnordered(log, e);
    ExactIff(log + [e]);
  }

  lemma LateIsUnordered(log: seq<Epoch>, e: Epoch)
    requires Count(log, e + SLOTS) > 0
    ensures !SlotOrdered(log + [e])
  {
    var log' := log + [e];
    CountPositive(log, e + SLOTS);
    var k :| 0 <= k < |log| && log[k] == e + SLOTS;
    assert log'[k] % SLOTS == log'[|log|] % SLOTS && log'[k] > log'[|log|];
  }
}
