/**
 The store of counter series and its garbage collector, run one operation
 at a time.  The specification of the store is its history of operations.
 */
module CounterStore {
  import opened CounterRing
  import opened CounterWindow
  import opened Texts
  import opened Words

  datatype CounterKey = CounterKey(entityId: Text, eventType: Text)

  // ---- eviction ----

  /** uint32((now - 3600) / 60): Go's division truncates toward zero and the conversion wraps. */
  function Cutoff(now: Time): Epoch {
    var d := now - MAX_WINDOW_SECONDS;
    var q := if d >= 0 then d / BUCKET_SECONDS else -(-d / BUCKET_SECONDS);
    q % HALF
  }

  /** The collector evicts a series none of whose slots reaches the cutoff. */
  predicate AgedOut(ring: Ring, now: Time) {
    forall j | 0 <= j < SLOTS :: SlotEpoch(ring[j]) < Cutoff(now)
  }

  lemma CutoffIs(now: Time)
    ensures now <= MAX_WINDOW_SECONDS - BUCKET_SECONDS ==> Cutoff(now) >= HALF - SLOTS
    ensures now > MAX_WINDOW_SECONDS - BUCKET_SECONDS ==> Cutoff(now) <= EpochOf(now)
    ensures MAX_WINDOW_SECONDS - BUCKET_SECONDS < now < MAX_WINDOW_SECONDS + BUCKET_SECONDS ==> Cutoff(now) == 0
    ensures now >= MAX_WINDOW_SECONDS + BUCKET_SECONDS ==> Cutoff(now) > 0
  {
  }

  /** The cutoff makes sense once the clock is within a minute of one hour: until then the collector drops even a
      series just incremented, whatever else it holds. */
  lemma GcKeepsPresentIff(ring: Ring, now: Time)
    requires forall j | 0 <= j < SLOTS :: SlotEpoch(ring[j]) <= EpochOf(now)
    requires SlotCount(ring[EpochOf(now) % SLOTS]) + 1 < HALF
    ensures !AgedOut(Land(ring, EpochOf(now)), now) <==> now > MAX_WINDOW_SECONDS - BUCKET_SECONDS
  {
    var e := EpochOf(now);
    var i := e % SLOTS;
    CutoffIs(now);
    BumpedCell(ring[i], e);
    assert Land(ring, e)[i] == Bumped(ring[i], e);
    forall j | 0 <= j < SLOTS ensures SlotEpoch(Land(ring, e)[j]) <= e {
      if j != i { assert Land(ring, e)[j] == ring[j]; }
    }
  }

  /** From the first hour on, the collector evicts exactly the series whose every bucket ended an hour ago or more. */
  lemma AgedOutIff(ring: Ring, now: Time)
    requires now >= 3600
    ensures AgedOut(ring, now) <==> forall j | 0 <= j < SLOTS :: (SlotEpoch(ring[j]) + 1) * 60 + 3600 <= now
  {
    forall j | 0 <= j < SLOTS
      ensures SlotEpoch(ring[j]) < Cutoff(now) <==> (SlotEpoch(ring[j]) + 1) * 60 + 3600 <= now
    {
      OlderIff(SlotEpoch(ring[j]), now);
    }
  }

  lemma OlderIff(e: Epoch, now: Time)
    requires now >= 3600
    ensures e < Cutoff(now) <==> (e + 1) * 60 + 3600 <= now
  {
  }

  /** A series that was created and not yet incremented is evicted, except in the two minutes around the first hour. */
  lemma EmptyAgesIff(now: Time)
    ensures AgedOut(EMPTY, now) <==>
            now <= MAX_WINDOW_SECONDS - BUCKET_SECONDS || now >= MAX_WINDOW_SECONDS + BUCKET_SECONDS
  {
    CutoffIs(now);
    assert SlotEpoch(EMPTY[0]) == 0;
  }

  function Swept(ring: Ring, visited: bool, now: Time): Ring {
    if visited && AgedOut(ring, now) then EMPTY else ring
  }

  // ---- histories ----

  datatype Op = Increment(key: CounterKey, at: Time) | Gc(at: Time)

  /** The ring of `key` after the operations; with `collect` off the collector does nothing. */
  function RingAfter(ops: seq<Op>, key: CounterKey, collect: bool): Ring {
    if ops == [] then EMPTY
    else
      var ring := RingAfter(ops[..|ops| - 1], key, collect);
      match ops[|ops| - 1]
      case Increment(k, t) => if k == key then Land(ring, EpochOf(t)) else ring
      case Gc(t) => Swept(ring, collect, t)
  }

  lemma RingAfterIncrement(ops: seq<Op>, key: CounterKey, at: Time, k: CounterKey)
    ensures RingAfter(ops + [Increment(key, at)], k, true) ==
            if k == key then Land(RingAfter(ops, k, true), EpochOf(at)) else RingAfter(ops, k, true)
  {
    assert (ops + [Increment(key, at)])[..|ops|] == ops;
  }

  function TimesOf(ops: seq<Op>, key: CounterKey): seq<Time> {
    if ops == [] then []
    else
      var last := ops[|ops| - 1];
      TimesOf(ops[..|ops| - 1], key) + if last.Increment? && last.key == key then [last.at] else []
  }

  ghost predicate TimeOrdered(ops: seq<Op>) {
    && (forall j, k | 0 <= j < k < |ops| :: ops[j].at <= ops[k].at)
    && (forall k | 0 <= k < |ops| && ops[k].Gc? :: ops[k].at > MAX_WINDOW_SECONDS - BUCKET_SECONDS)
  }

  /** Collected and uncollected slots agree, or the collected one is empty and the other out of reach of
      every window that ends at `now` or later. */
  ghost predicate SlotsAgree(collected: Word, kept: Word, now: Time) {
    collected == kept || (collected == 0 && SlotEpoch(kept) * BUCKET_SECONDS < now - MAX_WINDOW_SECONDS)
  }

  ghost predicate RingsAgree(collected: Ring, kept: Ring, now: Time) {
    forall i | 0 <= i < SLOTS :: SlotsAgree(collected[i], kept[i], now)
  }

  lemma LandKeepsAgreement(collected: Ring, kept: Ring, at: Time)
    requires RingsAgree(collected, kept, at)
    ensures RingsAgree(Land(collected, EpochOf(at)), Land(kept, EpochOf(at)), at)
  {
    var e := EpochOf(at);
    assert SlotsAgree(collected[e % SLOTS], kept[e % SLOTS], at);
    assert forall i | 0 <= i < SLOTS && i != e % SLOTS :: SlotsAgree(collected[i], kept[i], at);
  }

  lemma GcKeepsAgreement(collected: Ring, kept: Ring, at: Time)
    requires RingsAgree(collected, kept, at) && at > MAX_WINDOW_SECONDS - BUCKET_SECONDS && AgedOut(collected, at)
    ensures RingsAgree(EMPTY, kept, at)
  {
    forall i | 0 <= i < SLOTS ensures SlotsAgree(EMPTY[i], kept[i], at) {
      assert SlotsAgree(collected[i], kept[i], at) && SlotEpoch(collected[i]) < Cutoff(at);
    }
  }

  lemma AgreementLasts(collected: Ring, kept: Ring, at: Time, later: Time)
    requires RingsAgree(collected, kept, at) && at <= later
    ensures RingsAgree(collected, kept, later)
  {
    forall i | 0 <= i < SLOTS ensures SlotsAgree(collected[i], kept[i], later) {
      assert SlotsAgree(collected[i], kept[i], at);
    }
  }

  lemma {:induction false} RunsAgree(ops: seq<Op>, key: CounterKey, now: Time)
    requires TimeOrdered(ops) && (forall k | 0 <= k < |ops| :: ops[k].at <= now)
    ensures RingsAgree(RingAfter(ops, key, true), RingAfter(ops, key, false), now)
  {
    if ops != [] {
      var init, last := ops[..|ops| - 1], ops[|ops| - 1];
      assert forall k | 0 <= k < |init| :: init[k] == ops[k];
      RunsAgree(init, key, last.at);
      var c, u := RingAfter(init, key, true), RingAfter(init, key, false);
      match last {
        case Increment(k, t) => if k == key { LandKeepsAgreement(c, u, t); }
        case Gc(t) => if AgedOut(c, t) { GcKeepsAgreement(c, u, t); }
      }
      AgreementLasts(RingAfter(ops, key, true), RingAfter(ops, key, false), last.at, now);
    }
  }

  lemma {:induction false} AgreeingSums(collected: Ring, kept: Ring, now: Time, windowStart: int, n: nat)
    requires RingsAgree(collected, kept, now) && windowStart >= now - MAX_WINDOW_SECONDS && n <= SLOTS
    ensures SumBelow(collected, windowStart, n) == SumBelow(kept, windowStart, n)
  {
    if n > 0 {
      AgreeingSums(collected, kept, now, windowStart, n - 1);
      assert SlotsAgree(collected[n - 1], kept[n - 1], now);
    }
  }

  /** The collector is invisible: in every time-ordered run, every later sum over an allowed window is
      what it would be had the collector never run. */
  lemma GcInvisible(ops: seq<Op>, key: CounterKey, now: Time, window: int)
    requires TimeOrdered(ops) && (forall k | 0 <= k < |ops| :: ops[k].at <= now)
    requires 1 <= window <= MAX_WINDOW_SECONDS
    ensures RingSum(RingAfter(ops, key, true), now - window) == RingSum(RingAfter(ops, key, false), now - window)
  {
    RunsAgree(ops, key, now);
    AgreeingSums(RingAfter(ops, key, true), RingAfter(ops, key, false), now, now - window, SLOTS);
  }

  lemma {:induction false} UncollectedIsReplay(ops: seq<Op>, key: CounterKey)
    ensures RingAfter(ops, key, false) == Replay(Epochs(TimesOf(ops, key)))
  {
    if ops != [] {
      var init, last := ops[..|ops| - 1], ops[|ops| - 1];
      UncollectedIsReplay(init, key);
      var times := TimesOf(ops, key);
      if last.Increment? && last.key == key {
        assert times[..|times| - 1] == TimesOf(init, key);
        assert Epochs(times)[..|times| - 1] == Epochs(TimesOf(init, key));
      } else {
        assert times == TimesOf(init, key);
      }
    }
  }

  lemma {:induction false} TimesInOrder(ops: seq<Op>, key: CounterKey, now: Time)
    requires TimeOrdered(ops) && (forall k | 0 <= k < |ops| :: ops[k].at <= now)
    ensures forall k | 0 <= k < |TimesOf(ops, key)| :: TimesOf(ops, key)[k] <= now
    ensures forall j, k | 0 <= j < k < |TimesOf(ops, key)| :: TimesOf(ops, key)[j] <= TimesOf(ops, key)[k]
  {
    if ops != [] {
      var init, last := ops[..|ops| - 1], ops[|ops| - 1];
      assert forall k | 0 <= k < |init| :: init[k] == ops[k];
      TimesInOrder(init, key, last.at);
    }
  }

  /** The contract of counter() through the store: with the collector running, a time-ordered history
      answers every allowed window with the true count, give or take one bucket at its old end. */
  lemma StoreContract(ops: seq<Op>, key: CounterKey, now: Time, window: int)
    requires TimeOrdered(ops) && (forall k | 0 <= k < |ops| :: ops[k].at <= now)
    requires CountsFit(Epochs(TimesOf(ops, key))) && 1 <= window <= MAX_WINDOW_SECONDS
    ensures AtOrAfter(TimesOf(ops, key), now - window + BUCKET_SECONDS)
            <= RingSum(RingAfter(ops, key, true), now - window)
            <= AtOrAfter(TimesOf(ops, key), now - window)
  {
    var times := TimesOf(ops, key);
    GcInvisible(ops, key, now, window);
    UncollectedIsReplay(ops, key);
    TimesInOrder(ops, key, now);
    assert SlotOrdered(Epochs(times));
    WindowSumInSeconds(times, now, window);
  }

  lemma ExactHistory(ops: seq<Op>, key: CounterKey, now: Time)
    requires TimeOrdered(ops) && (forall k | 0 <= k < |ops| :: ops[k].at <= now)
    requires CountsFit(Epochs(TimesOf(ops, key)))
    ensures Exact(RingAfter(ops, key, false), Epochs(TimesOf(ops, key))) && NotLater(Epochs(TimesOf(ops, key)), now)
    ensures SlotOrdered(Epochs(TimesOf(ops, key)))
  {
    UncollectedIsReplay(ops, key);
    TimesInOrder(ops, key, now);
    ExactIff(Epochs(TimesOf(ops, key)));
    ExactNow(Epochs(TimesOf(ops, key)));
  }

  lemma OneMoreTime(ops: seq<Op>, key: CounterKey, at: Time)
    ensures Epochs(TimesOf(ops + [Increment(key, at)], key)) == Epochs(TimesOf(ops, key)) + [EpochOf(at)]
  {
    assert (ops + [Increment(key, at)])[..|ops|] == ops;
  }

  /** An increment and a later sum of the same key: the sum is what it would have been, and one more if and only
      if the increment's own bucket starts in the window (less the full-hour bucket it may displace). */
  lemma OwnIncrement(ops: seq<Op>, key: CounterKey, at: Time, now: Time, window: int)
    requires TimeOrdered(ops + [Increment(key, at)]) && at <= now && 1 <= window <= MAX_WINDOW_SECONDS
    requires CountsFit(Epochs(TimesOf(ops + [Increment(key, at)], key)))
    ensures var before, after := RingSum(RingAfter(ops, key, true), now - window),
                                 RingSum(RingAfter(ops + [Increment(key, at)], key, true), now - window);
            && after + Displaced(Epochs(TimesOf(ops, key)), EpochOf(at), now, window) ==
               before + (if EpochOf(at) * BUCKET_SECONDS >= now - window then 1 else 0)
            && (EpochOf(at) * BUCKET_SECONDS >= now - window ==> after > 0)
  {
    var ops' := ops + [Increment(key, at)];
    assert forall k | 0 <= k < |ops| :: ops[k] == ops'[k];
    assert ops'[|ops|].at == at;
    OneMoreTime(ops, key, at);
    CountsFitSnoc(Epochs(TimesOf(ops, key)), EpochOf(at));
    ExactHistory(ops, key, now);
    ExactHistory(ops', key, now);
    OrderedSnoc(Epochs(TimesOf(ops, key)), EpochOf(at));
    GcInvisible(ops, key, now, window);
    GcInvisible(ops', key, now, window);
    OneMore(RingAfter(ops, key, false), RingAfter(ops', key, false), Epochs(TimesOf(ops, key)), EpochOf(at), now,
        window);
  }

  // ---- the objects ----

  class CounterSeries {
    const slots: array<Word>

    constructor ()
      ensures fresh(slots) && slots.Length == SLOTS && slots[..] == EMPTY
    {
      slots := new Word[SLOTS](_ => 0);
    }

    ghost function Contents(): Ring
      requires slots.Length == SLOTS
      reads slots
    {
      slots[..]
    }

    /** Without interference the first compare-and-swap succeeds; CounterInterleaving has the retries. */
    method Increment(now: Time)
      requires slots.Length == SLOTS
      modifies slots
      ensures Contents() == Land(old(Contents()), EpochOf(now))
    {
      var epoch := now / BUCKET_SECONDS;
      var i := epoch % SLOTS;
      var seen := slots[i];
      if SlotEpoch(seen) == epoch {
        slots[i] := (seen + 1) % WORDS;
      } else {
        slots[i] := epoch * HALF + 1;
      }
    }

    method Sum(windowStart: int) returns (total: nat)
      requires slots.Length == SLOTS
      ensures total == RingSum(Contents(), windowStart)
    {
      total := 0;
      for i := 0 to SLOTS
        invariant total == SumBelow(Contents(), windowStart, i)
      {
        if SlotEpoch(slots[i]) * BUCKET_SECONDS >= windowStart {
          total := total + SlotCount(slots[i]);
        }
      }
    }

    /** The collector's scan of one series. */
    method Evictable(now: Time) returns (aged: bool)
      requires slots.Length == SLOTS
      ensures aged == AgedOut(Contents(), now)
    {
      var cutoff := Cutoff(now);
      for j := 0 to SLOTS
        invariant forall i | 0 <= i < j :: SlotEpoch(slots[i]) < cutoff
      {
        if SlotEpoch(slots[j]) >= cutoff { return false; }
      }
      return true;
    }
  }

  /** All series by key.  `ops` is the history the store stands for; the program does not hold it. */
  class CounterStore {
    var series: map<CounterKey, CounterSeries>
    ghost var ops: seq<Op>

    ghost function Arrays(): set<array<Word>>
      reads this
    {
      set k | k in series :: series[k].slots
    }

    /** Every key owns its slots. */
    ghost predicate Shaped()
      reads this
    {
      && (forall k | k in series :: series[k].slots.Length == SLOTS)
      && (forall k, l | k in series && l in series && k != l :: series[k].slots != series[l].slots)
    }

    ghost function RingOf(key: CounterKey): Ring
      requires Shaped()
      reads this, Arrays()
    {
      if key in series then series[key].Contents() else EMPTY
    }

    ghost predicate Valid()
      reads this, Arrays()
    {
      Shaped() && forall k :: RingOf(k) == RingAfter(ops, k, true)
    }

    constructor ()
      ensures Valid() && ops == [] && fresh(Arrays())
    {
      series := map[];
      ops := [];
    }

    /** Load or store: an absent key gets an empty series. */
    method Fetch(key: CounterKey)
      requires Shaped()
      modifies `series
      ensures Shaped() && key in series && series.Keys == old(series.Keys) + {key}
      ensures forall k | k in old(series) :: series[k] == old(series[k])
      ensures key !in old(series) ==> fresh(series[key].slots) && series[key].Contents() == EMPTY
    {
      if key !in series {
        var created := new CounterSeries();
        series := series[key := created];
      }
    }

    method Increment(entityId: Text, eventType: Text, now: Time)
      requires Valid()
      modifies this, Arrays()
      ensures Valid() && ops == old(ops) + [Op.Increment(CounterKey(entityId, eventType), now)]
      ensures fresh(Arrays() - old(Arrays()))
    {
      var key := CounterKey(entityId, eventType);
      Fetch(key);
      assert RingOf(key) == old(RingOf(key));
      label before:
      series[key].Increment(now);
      assert forall k | k in series && k != key :: series[k].Contents() == old@before(series[k].Contents());
      ops := ops + [Op.Increment(key, now)];
      forall k ensures RingOf(k) == RingAfter(ops, k, true) {
        RingAfterIncrement(old(ops), key, now, k);
      }
    }

    method Sum(entityId: Text, eventType: Text, windowStart: int) returns (total: nat)
      requires Valid()
      ensures total == RingSum(RingAfter(ops, CounterKey(entityId, eventType), true), windowStart)
    {
      var key := CounterKey(entityId, eventType);
      assert RingOf(key) == RingAfter(ops, key, true);
      if key in series {
        total := series[key].Sum(windowStart);
      } else {
        total := 0;
        EmptySum(windowStart, SLOTS);
      }
    }

    /** Visit every series, in any order, and drop the aged-out ones. */
    method Sweep(now: Time)
      requires Shaped()
      modifies this`series
      ensures Shaped() && Arrays() <= old(Arrays())
      ensures forall k :: RingOf(k) == Swept(old(RingOf(k)), true, now)
    {
      var todo := series.Keys;
      while todo != {}
        invariant todo <= series.Keys <= old(series.Keys)
        invariant forall k | k in series :: series[k] == old(series[k])
        invariant forall k | k in old(series) && k !in series :: AgedOut(old(series[k].Contents()), now)
        invariant forall k | k in series && k !in todo :: !AgedOut(series[k].Contents(), now)
        decreases todo
      {
        var key :| key in todo;
        todo := todo - {key};
        var aged := series[key].Evictable(now);
        if aged {
          series := series - {key};
        }
      }
    }

    method Collect(now: Time)
      requires Valid()
      modifies this
      ensures Valid() && ops == old(ops) + [Gc(now)] && Arrays() <= old(Arrays())
    {
      Sweep(now);
      ops := ops + [Gc(now)];
      assert ops[..|ops| - 1] == old(ops);
    }
  }

  lemma {:induction false} EmptySum(windowStart: int, n: nat)
    requires n <= SLOTS
    ensures SumBelow(EMPTY, windowStart, n) == 0
  {
    if n > 0 { EmptySum(windowStart, n - 1); }
  }
}
