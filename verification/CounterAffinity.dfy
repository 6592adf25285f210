/**
 counter() as a rule calls it: its guards, and why in a cluster a counter key lives
 on one pod.
 */
module CounterAffinity {
  import opened Texts
  import opened CounterRing
  import opened CounterWindow
  import opened CounterStore
  import opened Selection
  import opened Rendezvous

  const COLON: Byte := 0x3a

  /** The routing entity itself, or the entity, a colon and at least one more byte. */
  predicate AffineKey(key: Text, entity: Text) {
    || key == entity
    || (|key| > |entity| + 1 && key[|entity|] == COLON && key[..|entity|] == entity)
  }

  /** The keys of an entity: itself, and itself with a colon and a scope that is not empty. */
  lemma AffineKeyIff(key: Text, entity: Text)
    ensures AffineKey(key, entity) <==> key == entity || exists scope: Text ::
        scope != [] && key == entity + [0x3a] + scope
  {
    if AffineKey(key, entity) && key != entity {
      var scope := key[|entity| + 1..];
      assert key == entity + [0x3a] + scope && scope != [];
    }
    if scope: Text :| scope != [] && key == entity + [0x3a] + scope {
      assert key[|entity|] == 0x3a && key[..|entity|] == entity;
    }
  }

  ghost predicate OneEntityPerKey(entities: iset<Text>) {
    forall key, e, f | e in entities && f in entities && AffineKey(key, e) && AffineKey(key, f) :: e == f
  }

  /** No entity begins with another entity and a colon. */
  ghost predicate NoExtensions(entities: iset<Text>) {
    forall e, f | e in entities && f in entities :: !(e + [COLON] <= f)
  }

  lemma SharedKeyExtends(key: Text, e: Text, f: Text)
    requires AffineKey(key, e) && AffineKey(key, f) && e != f && |e| <= |f|
    ensures e + [COLON] <= f
  {
    assert e <= key && f <= key;
    assert e == key[..|e|] && f == key[..|f|];
    assert f[|e|] == key[|e|] == COLON;
  }

  /** A key affine to both an entity and its extension. */
  function SharedKey(e: Text, f: Text): Text {
    if |f| > |e| + 1 then f else f + [COLON, COLON]
  }

  lemma ExtensionSharesKey(e: Text, f: Text)
    requires e + [COLON] <= f
    ensures e != f && AffineKey(SharedKey(e, f), e) && AffineKey(SharedKey(e, f), f)
  {
    var key := SharedKey(e, f);
    assert f[..|e| + 1] == e + [COLON];
    assert f[..|e|] == e && f[|e|] == COLON;
    assert key[..|e|] == e && key[|e|] == COLON;
    if |f| <= |e| + 1 { assert key[..|f|] == f; }
  }

  /** Each key is affine to at most one entity if and only if no entity begins with another and a colon.
      The colon alone is enough: "a::x" is affine to both "a" and "a:". */
  lemma OneEntityPerKeyIff(entities: iset<Text>)
    ensures OneEntityPerKey(entities) <==> NoExtensions(entities)
  {
    if NoExtensions(entities) {
      forall key, e, f | e in entities && f in entities && AffineKey(key, e) && AffineKey(key, f) ensures e == f {
        if e != f {
          if |e| <= |f| { SharedKeyExtends(key, e, f); } else { SharedKeyExtends(key, f, e); }
        }
      }
    } else {
      var e, f :| e in entities && f in entities && e + [COLON] <= f;
      ExtensionSharesKey(e, f);
    }
  }

  // ---- one pod per key ----

  /** A counter() call made while processing an event on some pod, with the entity seen there.  `given`: the
      entity is in the event's bytes, so every node that parses them sees it; otherwise it is an id drawn anew
      by each parse. */
  datatype Call = Call(event: nat, origin: Text, given: bool, entity: Text, pod: Text, key: Text)

  /** Agreed membership, no fallback: each event is processed on one pod, which for a given entity is the owner
      that the list of the submitting node names; a drawn entity is no other event's; and a call goes through
      only for an affine key. */
  ghost predicate Routed(calls: seq<Call>, lists: map<Text, seq<Text>>) {
    forall i | 0 <= i < |calls| ::
      && AffineKey(calls[i].key, calls[i].entity)
      && (calls[i].given ==>
            calls[i].origin in lists && calls[i].pod == OwnerOf(lists[calls[i].origin], calls[i].entity))
      && (forall j | 0 <= j < |calls| && calls[j].event == calls[i].event :: calls[j].pod == calls[i].pod)
      && (!calls[i].given ==>
            forall j | 0 <= j < |calls| && calls[j].entity == calls[i].entity :: calls[j].event == calls[i].event)
  }

  function CountOn(calls: seq<Call>, pod: Text, key: Text): nat {
    if calls == [] then 0
    else CountOn(calls[..|calls| - 1], pod, key) +
         if calls[|calls| - 1].pod == pod && calls[|calls| - 1].key == key then 1 else 0
  }

  function CountAll(calls: seq<Call>, key: Text): nat {
    if calls == [] then 0
    else CountAll(calls[..|calls| - 1], key) + if calls[|calls| - 1].key == key then 1 else 0
  }

  lemma {:induction false} OnePodCountsAll(calls: seq<Call>, pod: Text, key: Text)
    requires forall i | 0 <= i < |calls| && calls[i].key == key :: calls[i].pod == pod
    ensures CountOn(calls, pod, key) == CountAll(calls, key)
    ensures forall other: Text | other != pod :: CountOn(calls, other, key) == 0
  {
    if calls != [] {
      var init := calls[..|calls| - 1];
      assert forall i | 0 <= i < |init| :: init[i] == calls[i];
      OnePodCountsAll(init, pod, key);
    }
  }

  lemma SameHome(lists: map<Text, seq<Text>>, names: iset<Text>, c: Call, d: Call)
    requires [] !in names && SumsDiffer(names)
    requires forall p | p in lists :: p in names && forall q :: q in lists[p] <==> q in lists
    requires c.origin in lists && c.pod == OwnerOf(lists[c.origin], c.entity)
    requires d.origin in lists && d.pod == OwnerOf(lists[d.origin], d.entity)
    requires c.entity == d.entity
    ensures c.pod == d.pod
  {
    SumsSeparate(names, FnvSum(c.entity));
    assert c.origin in lists[c.origin];
    SameChoice(lists[c.origin], lists[d.origin], names, PeerScore(FnvSum(c.entity)));
  }

  /** In a cluster with an agreed peer list, if no entity begins with another and a colon, the pod that makes
      one call with a key counts every increment of that key in the cluster, and no other pod counts any. */
  lemma HomePodCountsCluster(calls: seq<Call>, lists: map<Text, seq<Text>>, names: iset<Text>,
                             entities: iset<Text>, i: nat)
    requires [] !in names && SumsDiffer(names)
    requires forall p | p in lists :: p in names && forall q :: q in lists[p] <==> q in lists
    requires Routed(calls, lists) && NoExtensions(entities)
    requires forall j | 0 <= j < |calls| :: calls[j].entity in entities
    requires i < |calls|
    ensures CountOn(calls, calls[i].pod, calls[i].key) == CountAll(calls, calls[i].key)
    ensures forall other: Text | other != calls[i].pod :: CountOn(calls, other, calls[i].key) == 0
  {
    var c := calls[i];
    OneEntityPerKeyIff(entities);
    forall j | 0 <= j < |calls| && calls[j].key == c.key ensures calls[j].pod == c.pod {
      assert AffineKey(c.key, c.entity) && AffineKey(c.key, calls[j].entity);
      if c.given && calls[j].given { SameHome(lists, names, c, calls[j]); }
    }
    OnePodCountsAll(calls, c.pod, c.key);
  }

  // ---- the call ----

  datatype Result = Ok(count: nat) | WindowTooSmall | WindowTooLarge | NotAffine

  /** An answer for the window that ends at `now`: true to the history, give or take one bucket. */
  ghost predicate Truthful(ops: seq<Op>, key: CounterKey, now: Time, window: int, count: nat) {
    var times := TimesOf(ops, key);
    TimeOrdered(ops) && CountsFit(Epochs(times)) ==>
      AtOrAfter(times, now - window + BUCKET_SECONDS) <= count <= AtOrAfter(times, now - window)
  }

  lemma SumIsTruthful(ops: seq<Op>, key: CounterKey, now: Time, window: int)
    requires ops != [] && ops[|ops| - 1].at <= now && 1 <= window <= MAX_WINDOW_SECONDS
    ensures Truthful(ops, key, now, window, RingSum(RingAfter(ops, key, true), now - window))
  {
    if TimeOrdered(ops) && CountsFit(Epochs(TimesOf(ops, key))) {
      assert forall k | 0 <= k < |ops| :: ops[k].at <= ops[|ops| - 1].at;
      StoreContract(ops, key, now, window);
    }
  }

  /** What a call adds to the answer it gets: its own increment if and only if that one's bucket starts in the
      window, less the full-hour bucket it may displace. */
  ghost predicate OwnCounted(ops: seq<Op>, key: CounterKey, at: Time, now: Time, window: int, count: nat) {
    var ops' := ops + [Increment(key, at)];
    var start := now - window;
    TimeOrdered(ops') && CountsFit(Epochs(TimesOf(ops', key))) ==>
      && count + Displaced(Epochs(TimesOf(ops, key)), EpochOf(at), now, window) ==
         RingSum(RingAfter(ops, key, true), start) + (if EpochOf(at) * BUCKET_SECONDS >= start then 1 else 0)
      && (EpochOf(at) * BUCKET_SECONDS >= start ==> count > 0)
  }

  lemma AnswerCounts(ops: seq<Op>, key: CounterKey, at: Time, now: Time, window: int)
    requires at <= now && 1 <= window <= MAX_WINDOW_SECONDS
    ensures OwnCounted(ops, key, at, now, window,
        RingSum(RingAfter(ops + [Increment(key, at)], key, true), now - window))
  {
    if TimeOrdered(ops + [Increment(key, at)]) && CountsFit(Epochs(TimesOf(ops + [Increment(key, at)], key))) {
      OwnIncrement(ops, key, at, now, window);
    }
  }

  method IncrementAndSum(store: CounterStore, key: CounterKey, windowSeconds: int, now: Time,
      later: Time) returns (count: nat)
    requires store.Valid() && 1 <= windowSeconds <= MAX_WINDOW_SECONDS
    modifies store, store.Arrays()
    ensures store.Valid() && store.ops == old(store.ops) + [Increment(key, now)]
    ensures count == RingSum(RingAfter(store.ops, key, true), later - windowSeconds)
  {
    store.Increment(key.entityId, key.eventType, now);
    count := store.Sum(key.entityId, key.eventType, later - windowSeconds);
  }

  /** Guards, then increment, then sum; the clock is read again for the sum, and may have been set back.
      Refused calls count nothing. */
  method Counter(store: CounterStore, entityId: Text, eventType: Text, windowSeconds: int,
                 affinity: bool, curEntity: Text, now: Time, later: Time) returns (r: Result)
    requires store.Valid()
    modifies store, store.Arrays()
    ensures store.Valid()
    ensures r == WindowTooSmall <==> windowSeconds < 1
    ensures r == WindowTooLarge <==> windowSeconds > 3600
    ensures r.Ok? <==> 1 <= windowSeconds <= MAX_WINDOW_SECONDS && (affinity ==> AffineKey(entityId, curEntity))
    ensures !r.Ok? ==> store.ops == old(store.ops)
    ensures r.Ok? ==> store.ops == old(store.ops) + [Increment(CounterKey(entityId, eventType), now)]
    ensures r.Ok? && now <= later ==>
        Truthful(store.ops, CounterKey(entityId, eventType), later, windowSeconds, r.count)
    ensures r.Ok? && now <= later ==>
        OwnCounted(old(store.ops), CounterKey(entityId, eventType), now, later, windowSeconds, r.count)
  {
    if windowSeconds < 1 { return WindowTooSmall; }
    if windowSeconds > MAX_WINDOW_SECONDS { return WindowTooLarge; }
    if affinity && !AffineKey(entityId, curEntity) { return NotAffine; }
    var key := CounterKey(entityId, eventType);
    var count := IncrementAndSum(store, key, windowSeconds, now, later);
    if now <= later {
      SumIsTruthful(store.ops, key, later, windowSeconds);
      AnswerCounts(old(store.ops), key, now, later, windowSeconds);
    }
    return Ok(count);
  }

  /** A one-second window on a fresh key at the last second of a minute: the call that has just counted is
      answered 0. */
  lemma OwnIncrementMissed(key: CounterKey)
    ensures RingSum(RingAfter([Increment(key, 3659)], key, true), 3659 - 1) == 0
  {
    var ops: seq<Op> := [];
    assert ops + [Increment(key, 3659)] == [Increment(key, 3659)];
    assert TimesOf(ops, key) == [] && Epochs([]) == [];
    OneMoreTime(ops, key, 3659);
    CountsFitSnoc([], EpochOf(3659));
    OwnIncrement(ops, key, 3659, 3659, 1);
    EmptySum(3658, SLOTS);
  }
}
