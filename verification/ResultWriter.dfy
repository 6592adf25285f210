/**
 The writer: results are counted, filtered by the emission policy, batched and
 inserted into a table keyed by event id that ignores ids it already has.

 Of the stream of results received, `seen`, the policy keeps some; `flushed` is the part
 of those handed to the database so far and `stored` the part that reached it, on top of
 `initial`, the table as it was found.  The program holds none of these.
 */
module ResultWriter {
  import opened Verdicts

  const BATCH_SIZE := 100

  type Id = string

  datatype Result = Result(eventId: Id, verdict: Verdict, failedRules: nat, row: string)

  type Table = map<Id, Result>

  /** INSERT OR IGNORE, row by row. */
  function Insert(t: Table, r: Result): Table {
    if r.eventId in t then t else t[r.eventId := r]
  }

  function InsertAll(t: Table, rs: seq<Result>): Table {
    if rs == [] then t else Insert(InsertAll(t, rs[..|rs| - 1]), rs[|rs| - 1])
  }

  // ---- what the table means ----

  lemma {:induction false} InsertAllConcat(t: Table, a: seq<Result>, b: seq<Result>)
    ensures InsertAll(t, a + b) == InsertAll(InsertAll(t, a), b)
  {
    if b == [] {
      assert a + b == a;
    } else {
      assert (a + b)[..|a + b| - 1] == a + b[..|b| - 1];
      InsertAllConcat(t, a, b[..|b| - 1]);
    }
  }

  /** A row is there if it was there before or some result has its id, and the earliest one wins. */
  lemma {:induction false} FirstWins(t: Table, rs: seq<Result>, id: Id)
    ensures id in t ==> id in InsertAll(t, rs) && InsertAll(t, rs)[id] == t[id]
    ensures id in InsertAll(t, rs) <==> id in t || exists i :: 0 <= i < |rs| && rs[i].eventId == id
    ensures id !in t && id in InsertAll(t, rs) ==>
              exists i :: && 0 <= i < |rs| && rs[i].eventId == id && InsertAll(t, rs)[id] == rs[i]
                          && forall j | 0 <= j < i :: rs[j].eventId != id
  {
    if rs != [] {
      var n := |rs| - 1;
      var init := rs[..n];
      FirstWins(t, init, id);
      var before := InsertAll(t, init);
      if id in before {
        if id !in t {
          var i :| 0 <= i < |init| && init[i].eventId == id && before[id] == init[i]
                   && forall j | 0 <= j < i :: init[j].eventId != id;
          assert rs[i] == init[i] && forall j | 0 <= j < i :: rs[j] == init[j];
        }
      } else {
        assert forall j | 0 <= j < n :: rs[j] == init[j];
      }
    }
  }

  lemma {:induction false} InsertKnown(t: Table, rs: seq<Result>)
    requires forall i | 0 <= i < |rs| :: rs[i].eventId in t
    ensures InsertAll(t, rs) == t
  {
    if rs != [] { InsertKnown(t, rs[..|rs| - 1]); }
  }

  /** Inserting a batch again changes nothing: the single retry is safe even after a commit that
      reported failure. */
  lemma RetryIsHarmless(t: Table, rs: seq<Result>)
    ensures InsertAll(InsertAll(t, rs), rs) == InsertAll(t, rs)
  {
    forall i | 0 <= i < |rs| ensures rs[i].eventId in InsertAll(t, rs) {
      FirstWins(t, rs, rs[i].eventId);
    }
    InsertKnown(InsertAll(t, rs), rs);
  }

  // ---- the policy ----

  /** Only non-approve verdicts and failures are interesting. */
  predicate Kept(interesting: bool, r: Result) {
    !interesting || r.verdict != APPROVE || r.failedRules > 0
  }

  function KeptOf(interesting: bool, rs: seq<Result>): seq<Result> {
    if rs == [] then []
    else
      var r := rs[|rs| - 1];
      KeptOf(interesting, rs[..|rs| - 1]) + if Kept(interesting, r) then [r] else []
  }

  datatype Stat = Approves | Blocks | Reviews

  /** Nothing that matters is filtered out: a block, a review or a result with failed rules is always kept. */
  lemma {:induction false} InterestingIsKept(interesting: bool, rs: seq<Result>, r: Result)
    requires r in rs && (r.verdict == "block" || r.verdict == "review" || r.failedRules > 0)
    ensures r in KeptOf(interesting, rs)
  {
    var n := |rs| - 1;
    if r != rs[n] {
      assert rs == rs[..n] + [rs[n]];
      InterestingIsKept(interesting, rs[..n], r);
    }
  }

  /** Without the policy everything is kept, and with it exactly the approvals without failures are not. */
  lemma KeptIff(interesting: bool, r: Result)
    ensures Kept(interesting, r) <==> !(interesting && r.verdict == "approve" && r.failedRules == 0)
  {
  }

  lemma {:induction false} ResultsAre(turns: seq<Turn>, r: Result)
    ensures r in ResultsOf(turns) <==> Got(r) in turns
  {
    if turns != [] {
      var n := |turns| - 1;
      assert turns == turns[..n] + [turns[n]];
      ResultsAre(turns[..n], r);
    }
  }

  /** What a run without a double failure leaves: every result received that matters has its id in the table. */
  lemma InterestingIsStored(initial: Table, interesting: bool, turns: seq<Turn>, r: Result)
    requires Got(r) in turns && (r.verdict == "block" || r.verdict == "review" || r.failedRules > 0)
    ensures r.eventId in InsertAll(initial, KeptOf(interesting, ResultsOf(turns)))
  {
    ResultsAre(turns, r);
    InterestingIsKept(interesting, ResultsOf(turns), r);
    FirstWins(initial, KeptOf(interesting, ResultsOf(turns)), r.eventId);
  }

  /** The counter a verdict is tallied under: anything but block and review counts as approve. */
  function Tally(v: Verdict): Stat { if v == BLOCK then Blocks else if v == REVIEW then Reviews else Approves }

  function CountTally(rs: seq<Result>, stat: Stat): nat {
    if rs == [] then 0 else CountTally(rs[..|rs| - 1], stat) + if Tally(rs[|rs| - 1].verdict) == stat then 1 else 0
  }

  function CountErrored(rs: seq<Result>): nat {
    if rs == [] then 0 else CountErrored(rs[..|rs| - 1]) + if rs[|rs| - 1].failedRules > 0 then 1 else 0
  }

  lemma CountSnoc(rs: seq<Result>, r: Result)
    ensures forall stat ::
              CountTally(rs + [r], stat) == CountTally(rs, stat) + if Tally(r.verdict) == stat then 1 else 0
    ensures CountErrored(rs + [r]) == CountErrored(rs) + if r.failedRules > 0 then 1 else 0
    ensures forall interesting ::
              KeptOf(interesting, rs + [r]) == KeptOf(interesting, rs) + if Kept(interesting, r) then [r] else []
  {
    assert (rs + [r])[..|rs|] == rs;
  }

  /** One attempt of insertBatch: a transaction that commits, commits but reports an error, or does nothing. */
  datatype Attempt = Committed | CommittedWithError | Failed

  /** What happens on one turn of the select loop. */
  datatype Turn = Got(result: Result) | Ticked

  function ResultsOf(turns: seq<Turn>): seq<Result> {
    if turns == [] then []
    else ResultsOf(turns[..|turns| - 1]) + if turns[|turns| - 1].Got? then [turns[|turns| - 1].result] else []
  }

  class Writer {
    const interesting: bool
    var batch: seq<Result>
    var table: Table
    var approve: nat
    var block: nat
    var review: nat
    var errored: nat
    var skipped: nat
    ghost const initial: Table
    ghost var seen: seq<Result>
    ghost var flushed: seq<Result>
    ghost var stored: seq<Result>
    ghost var dropped: bool

    constructor (interesting: bool, existing: Table)
      ensures Valid() && seen == [] && !dropped && table == initial == existing && this.interesting == interesting
    {
      this.interesting, initial := interesting, existing;
      batch, table, approve, block, review, errored, skipped := [], existing, 0, 0, 0, 0, 0;
      seen, flushed, stored, dropped := [], [], [], false;
    }

    /** Flushes plus the current batch are the kept results in order, and the table is the first-wins fold
        over what was stored. */
    ghost predicate Valid()
      reads this
    {
      && flushed + batch == KeptOf(interesting, seen) && |batch| < BATCH_SIZE
      && table == InsertAll(initial, stored) && (!dropped ==> stored == flushed)
      && Tallied()
    }

    ghost predicate Tallied()
      reads `seen, `approve, `block, `review, `errored, `skipped
    {
      && approve == CountTally(seen, Approves) && block == CountTally(seen, Blocks)
      && review == CountTally(seen, Reviews) && errored == CountErrored(seen)
      && skipped + |KeptOf(interesting, seen)| == |seen|
    }

    method Count(r: Result)
      modifies `approve, `block, `review, `errored
      ensures approve == old(approve) + if Tally(r.verdict) == Approves then 1 else 0
      ensures block == old(block) + if Tally(r.verdict) == Blocks then 1 else 0
      ensures review == old(review) + if Tally(r.verdict) == Reviews then 1 else 0
      ensures errored == old(errored) + if r.failedRules > 0 then 1 else 0
    {
      if r.verdict == BLOCK {
        block := block + 1;
      } else if r.verdict == REVIEW {
        review := review + 1;
      } else {
        approve := approve + 1;
      }
      if r.failedRules > 0 { errored := errored + 1; }
    }

    method Observe(r: Result) returns (keep: bool)
      requires Tallied()
      modifies `approve, `block, `review, `errored, `skipped, `seen
      ensures Tallied() && seen == old(seen) + [r] && keep == Kept(interesting, r)
      ensures KeptOf(interesting, seen) == KeptOf(interesting, old(seen)) + if keep then [r] else []
    {
      CountSnoc(seen, r);
      Count(r);
      seen := seen + [r];
      if interesting && r.verdict == APPROVE && r.failedRules == 0 {
        skipped := skipped + 1;
        return false;
      }
      return true;
    }

    /** All rows or none. */
    method InsertBatch(rows: seq<Result>, attempt: Attempt) returns (err: bool)
      modifies `table
      ensures table == if attempt == Failed then old(table) else InsertAll(old(table), rows)
      ensures err == (attempt != Committed)
    {
      var tx := table;
      for i := 0 to |rows|
        invariant tx == InsertAll(table, rows[..i])
      {
        assert rows[..i + 1][..i] == rows[..i];
        if rows[i].eventId !in tx { tx := tx[rows[i].eventId := rows[i]]; }
      }
      assert rows[..|rows|] == rows;
      if attempt != Failed { table := tx; }
      err := attempt != Committed;
    }

    /** Insert the batch, and once more if that reported an error. */
    method Store(first: Attempt, second: Attempt) returns (lost: bool)
      modifies `table
      ensures lost == (first == Failed && second == Failed)
      ensures table == if lost then old(table) else InsertAll(old(table), batch)
    {
      var err := InsertBatch(batch, first);
      lost := first == Failed;
      if err {
        RetryIsHarmless(old(table), batch);
        err := InsertBatch(batch, second);
        lost := lost && second == Failed;
      }
    }

    /** The batch has been handed over; it is in the table unless it was lost. */
    ghost method Advance(lost: bool)
      requires flushed + batch == KeptOf(interesting, seen) && (!dropped ==> stored == flushed)
      requires table == InsertAll(initial, if lost then stored else stored + batch)
      modifies `flushed, `stored, `dropped
      ensures flushed == old(flushed + batch) == KeptOf(interesting, seen)
      ensures table == InsertAll(initial, stored) && (!dropped ==> stored == flushed)
      ensures dropped == (old(dropped) || lost)
    {
      if lost { dropped := true; } else { stored := stored + batch; }
      flushed := flushed + batch;
    }

    /** Store the batch, if there is one, and start a new one. */
    method Flush(first: Attempt, second: Attempt)
      requires flushed + batch == KeptOf(interesting, seen)
      requires table == InsertAll(initial, stored) && (!dropped ==> stored == flushed) && Tallied()
      modifies `batch, `table, `flushed, `stored, `dropped
      ensures Valid() && batch == [] && flushed == old(flushed + batch)
      ensures dropped == (old(dropped) || (old(batch) != [] && first == Failed && second == Failed))
    {
      if |batch| > 0 {
        var lost := Store(first, second);
        InsertAllConcat(initial, stored, batch);
        Advance(lost);
        batch := [];
        assert flushed + batch == flushed;
      }
    }

    method Receive(r: Result, first: Attempt, second: Attempt)
      requires Valid()
      modifies this
      ensures Valid() && seen == old(seen) + [r] && |batch| < 100
      ensures batch == if !Kept(interesting, r) then old(batch) else if |old(batch)| < 99 then old(batch) + [r] else []
      ensures dropped ==> old(dropped) || (first == Failed && second == Failed)
    {
      var keep := Observe(r);
      if !keep { return; }
      batch := batch + [r];
      assert flushed + batch == KeptOf(interesting, seen);
      if |batch| >= BATCH_SIZE { Flush(first, second); }
    }

    /** The select loop until the channel closes or the drain gives up, then the final flush.  However
        size, ticker and drain cut
        the stream, the table is the first-wins fold over the kept results, if no batch was dropped. */
    method Run(turns: seq<Turn>, fault: nat -> (Attempt, Attempt))
      requires Valid() && seen == [] && !dropped
      modifies this
      ensures Valid() && seen == ResultsOf(turns) && batch == []
      ensures flushed == KeptOf(interesting, ResultsOf(turns))
      ensures (forall n: nat :: fault(n) != (Failed, Failed)) ==>
                table == InsertAll(initial, KeptOf(interesting, ResultsOf(turns)))
      ensures (forall n: nat :: fault(n) != (Failed, Failed)) ==>
                forall r | Got(r) in turns && (r.verdict == "block" || r.verdict == "review" || r.failedRules > 0) ::
                  r.eventId in table
    {
      for i := 0 to |turns|
        invariant Valid() && seen == ResultsOf(turns[..i])
        invariant dropped ==> exists n: nat :: fault(n) == (Failed, Failed)
      {
        assert turns[..i + 1][..i] == turns[..i];
        match turns[i]
        case Got(r) => Receive(r, fault(i).0, fault(i).1);
        case Ticked => Flush(fault(i).0, fault(i).1);
        assert dropped ==> fault(i) == (Failed, Failed) || exists n: nat :: fault(n) == (Failed, Failed);
      }
      assert turns[..|turns|] == turns;
      Flush(fault(|turns|).0, fault(|turns|).1);
      assert dropped ==> fault(|turns|) == (Failed, Failed) || exists n: nat :: fault(n) == (Failed, Failed);
      forall r | Got(r) in turns && (r.verdict == "block" || r.verdict == "review" || r.failedRules > 0)
        ensures r.eventId in InsertAll(initial, KeptOf(interesting, ResultsOf(turns)))
      {
        InterestingIsStored(initial, interesting, turns, r);
      }
    }
  }
}
