/**
 One POST /events/batch request: lines are enqueued here, staged for the peer that
 owns them, or rejected; staged groups are then forwarded peer by peer.

 `fate` says what became of every non-blank line so far and `source` which line each
 enqueued event came from; the program keeps only the counters.
 */
module BatchIngest {
  import opened Options
  import opened Texts
  import opened Ndjson
  import opened Occurrences

  datatype Event = Event(id: Text, entity: Text)

  datatype Group = Group(raws: seq<Text>, events: seq<Event>)

  datatype Fate = Enqueued | Acknowledged | Rejected | Staged(peer: Text)

  /** Forward's three outcomes: the peer took the sub-batch, answered with a status, or never got it. */
  datatype Outcome = Ok | Status(code: int) | Transport

  const TOO_MANY_REQUESTS := 429
  const ACCEPTED := 202
  const ENTITY_TOO_LARGE := 413
  const BAD_REQUEST := 400

  /** How reading the body ended. */
  datatype End = Eof | TooLarge | Broken

  // ---- fates ----

  /** The lines waiting for `peer`, in order. */
  function Waiting(fate: seq<Fate>, peer: Text): seq<nat> {
    if fate == [] then []
    else Waiting(fate[..|fate| - 1], peer) + if fate[|fate| - 1] == Staged(peer) then [|fate| - 1] else []
  }

  ghost predicate CountsFollow(fate: seq<Fate>, g: Fate, fate': seq<Fate>) {
    && Occ(fate', Enqueued) == Occ(fate, Enqueued) + (if g == Enqueued then 1 else 0)
    && Occ(fate', Acknowledged) == Occ(fate, Acknowledged) + (if g == Acknowledged then 1 else 0)
    && Occ(fate', Rejected) == Occ(fate, Rejected) + (if g == Rejected then 1 else 0)
  }

  lemma CountsSnoc(fate: seq<Fate>, g: Fate)
    ensures CountsFollow(fate, g, fate + [g])
  {
    OccSnoc(fate, g, Enqueued);
    OccSnoc(fate, g, Acknowledged);
    OccSnoc(fate, g, Rejected);
  }

  lemma WaitingSnoc(fate: seq<Fate>, g: Fate, peer: Text)
    ensures Waiting(fate + [g], peer) == Waiting(fate, peer) + if g == Staged(peer) then [|fate|] else []
  {
    assert (fate + [g])[..|fate|] == fate;
  }

  lemma {:induction false} WaitingAre(fate: seq<Fate>, peer: Text)
    ensures forall k | 0 <= k < |Waiting(fate, peer)| ::
              Waiting(fate, peer)[k] < |fate| && fate[Waiting(fate, peer)[k]] == Staged(peer)
    ensures forall i | 0 <= i < |fate| && fate[i] == Staged(peer) :: i in Waiting(fate, peer)
    ensures |Waiting(fate, peer)| == Occ(fate, Staged(peer))
  {
    if fate != [] {
      var init := fate[..|fate| - 1];
      WaitingAre(init, peer);
      var w := Waiting(init, peer);
      forall k | 0 <= k < |Waiting(fate, peer)|
        ensures Waiting(fate, peer)[k] < |fate| && fate[Waiting(fate, peer)[k]] == Staged(peer)
      {
        if k < |w| { assert init[w[k]] == Staged(peer); }
      }
      forall i | 0 <= i < |fate| && fate[i] == Staged(peer) ensures i in Waiting(fate, peer) {
        if i < |init| { assert init[i] == Staged(peer) && i in w; }
      }
    }
  }

  /** Settling the first waiting line of a peer. */
  lemma {:induction false} SettleFirst(fate: seq<Fate>, peer: Text, g: Fate)
    requires Waiting(fate, peer) != [] && !g.Staged?
    requires Waiting(fate, peer)[0] < |fate|
    ensures var fate' := fate[Waiting(fate, peer)[0] := g];
            && Waiting(fate', peer) == Waiting(fate, peer)[1..]
            && (forall other: Text | other != peer :: Waiting(fate', other) == Waiting(fate, other))
            && (forall f: Fate :: Occ(fate', f) ==
                  Occ(fate, f) + (if f == g then 1 else 0) - (if f == Staged(peer) then 1 else 0))
  {
    WaitingAre(fate, peer);
    var n, i := |fate| - 1, Waiting(fate, peer)[0];
    var init, fate' := fate[..n], fate[i := g];
    if Waiting(init, peer) == [] {
      assert i == n && fate'[..n] == init;
    } else {
      assert i == Waiting(init, peer)[0];
      WaitingAre(init, peer);
      assert i < n && fate'[..n] == init[i := g];
      SettleFirst(init, peer, g);
    }
  }

  lemma {:induction false} SettledAll(fate: seq<Fate>)
    requires forall i | 0 <= i < |fate| :: !fate[i].Staged?
    ensures Occ(fate, Enqueued) + Occ(fate, Acknowledged) + Occ(fate, Rejected) == |fate|
  {
    if fate != [] { SettledAll(fate[..|fate| - 1]); }
  }

  /** Settling every waiting line of a peer at once. */
  function Settle(fate: seq<Fate>, peer: Text, g: Fate): (r: seq<Fate>)
    ensures |r| == |fate| && forall i | 0 <= i < |fate| :: r[i] == if fate[i] == Staged(peer) then g else fate[i]
  {
    if fate == [] then []
    else
      var last := fate[|fate| - 1];
      Settle(fate[..|fate| - 1], peer, g) + [if last == Staged(peer) then g else last]
  }

  lemma {:induction false} SettleCounts(fate: seq<Fate>, peer: Text, g: Fate)
    requires !g.Staged?
    ensures Waiting(Settle(fate, peer, g), peer) == []
    ensures forall other: Text | other != peer :: Waiting(Settle(fate, peer, g), other) == Waiting(fate, other)
    ensures forall f: Fate | f != Staged(peer) :: Occ(Settle(fate, peer, g), f) ==
              Occ(fate, f) + if f == g then |Waiting(fate, peer)| else 0
  {
    if fate != [] {
      var n := |fate| - 1;
      SettleCounts(fate[..n], peer, g);
      assert Settle(fate, peer, g)[..n] == Settle(fate[..n], peer, g);
    }
  }

  lemma SettleFollow(fate: seq<Fate>, peer: Text, g: Fate)
    requires g == Acknowledged || g == Rejected
    ensures var settled, n := Settle(fate, peer, g), |Waiting(fate, peer)|;
            && Occ(settled, Enqueued) == Occ(fate, Enqueued)
            && Occ(settled, Acknowledged) == Occ(fate, Acknowledged) + (if g == Acknowledged then n else 0)
            && Occ(settled, Rejected) == Occ(fate, Rejected) + (if g == Rejected then n else 0)
  {
    SettleCounts(fate, peer, g);
  }

  lemma {:induction false} WaitingWeight(handled: seq<Text>, fate: seq<Fate>, peer: Text, raws: seq<Text>)
    requires |handled| == |fate| && |raws| == |Waiting(fate, peer)|
    requires forall k | 0 <= k < |raws| :: Waiting(fate, peer)[k] < |fate| && raws[k] == handled[Waiting(fate, peer)[k]]
    ensures Weight(raws) <= Weight(handled)
  {
    if fate != [] {
      var n := |fate| - 1;
      WaitingAre(fate[..n], peer);
      if fate[n] == Staged(peer) {
        var m := |raws| - 1;
        assert Waiting(fate, peer)[..m] == Waiting(fate[..n], peer);
        WaitingWeight(handled[..n], fate[..n], peer, raws[..m]);
      } else {
        WaitingWeight(handled[..n], fate[..n], peer, raws);
      }
    }
  }

  /** What is left of a piece of the body: nothing of a blank one. */
  function Kept(piece: Text): seq<Text> { if Trim(piece) == [] then [] else [Trim(piece)] }

  function NonBlank(lines: seq<Text>): seq<Text> {
    if lines == [] then [] else NonBlank(lines[..|lines| - 1]) + Kept(lines[|lines| - 1])
  }

  lemma NonBlankNext(lines: seq<Text>, i: nat)
    requires i < |lines|
    ensures NonBlank(lines[..i + 1]) == NonBlank(lines[..i]) + Kept(lines[i])
  {
    assert lines[..i + 1][..i] == lines[..i];
  }

  /** The lines that were read to their end: an error discards the unfinished one. */
  function CompleteLines(body: Text, end: End): seq<Text> {
    if end == Eof then Lines(body) else Lines(body)[..|Lines(body)| - 1]
  }

  lemma {:induction false} NonBlankWeight(lines: seq<Text>)
    requires forall i | 0 <= i < |lines| :: NEWLINE !in lines[i]
    ensures Weight(NonBlank(lines)) <= Weight(lines)
  {
    if lines != [] {
      var n := |lines| - 1;
      NonBlankWeight(lines[..n]);
      TrimmedIsRaw(lines[n]);
      WeightSnoc(NonBlank(lines[..n]), Trim(lines[n]));
      assert NonBlank(lines[..n]) + [] == NonBlank(lines[..n]);
    }
  }

  lemma {:induction false} PrefixWeight(lines: seq<Text>, n: nat)
    requires n <= |lines|
    ensures Weight(lines[..n]) <= Weight(lines)
  {
    if n == |lines| {
      assert lines[..n] == lines;
    } else {
      assert lines[..|lines| - 1][..n] == lines[..n];
      PrefixWeight(lines[..|lines| - 1], n);
    }
  }

  // ---- what every step of a request keeps ----

  /** What a request meets: the line limit, whether it may be routed (cluster mode, and not forwarded already),
      parsing of a line given its number for the fresh id, the owning peer of an entity (None: this node),
      whether the n-th offer finds room in the queue, and what forwarding to a peer comes to. */
  datatype Rules = Rules(
    maxBytes: nat, routed: bool,
    parse: (Text, nat) -> Option<Event>, owner: Text -> Option<Text>,
    room: nat -> bool, outcome: Text -> Outcome)

  /** The peer a line belongs to. */
  function Route(c: Rules, event: Event): Option<Text> {
    if c.routed then c.owner(event.entity) else None
  }

  /** A line of acceptable size that parses. */
  predicate Fit(c: Rules, line: Text, number: nat) { |line| <= c.maxBytes && c.parse(line, number).Some? }

  /** A line that this node offers to its own queue. */
  predicate Ours(c: Rules, line: Text, number: nat) {
    Fit(c, line, number) && Route(c, c.parse(line, number).value).None?
  }

  /** How many of the lines are ours. */
  function Offers(c: Rules, lines: seq<Text>): nat {
    if lines == [] then 0
    else Offers(c, lines[..|lines| - 1]) + if Ours(c, lines[|lines| - 1], |lines| - 1) then 1 else 0
  }

  /** Some line of ours found the queue full: the n-th of them made the n-th offer. */
  predicate Full(c: Rules, lines: seq<Text>) {
    lines != [] &&
    (Full(c, lines[..|lines| - 1])
     || (Ours(c, lines[|lines| - 1], |lines| - 1) && !c.room(Offers(c, lines[..|lines| - 1]))))
  }

  /** What reading makes of a line that comes after `before`: after the first full queue everything is
      rejected, and until then a line's own size, parse and owner decide. */
  function ReadFate(c: Rules, before: seq<Text>, line: Text): Fate {
    var number := |before|;
    if Full(c, before) || !Fit(c, line, number) then Rejected
    else
      var route := Route(c, c.parse(line, number).value);
      if route.Some? then Staged(route.value)
      else if c.room(Offers(c, before)) then Enqueued
      else Rejected
  }

  function ReadAll(c: Rules, lines: seq<Text>): (r: seq<Fate>)
    ensures |r| == |lines|
  {
    if lines == [] then []
    else
      var before := lines[..|lines| - 1];
      ReadAll(c, before) + [ReadFate(c, before, lines[|lines| - 1])]
  }

  lemma ReadingSnoc(c: Rules, lines: seq<Text>, line: Text)
    ensures Offers(c, lines + [line]) == Offers(c, lines) + if Ours(c, line, |lines|) then 1 else 0
    ensures Full(c, lines + [line]) <==> Full(c, lines) || (Ours(c, line, |lines|) && !c.room(Offers(c, lines)))
    ensures ReadAll(c, lines + [line]) == ReadAll(c, lines) + [ReadFate(c, lines, line)]
  {
    assert (lines + [line])[..|lines|] == lines;
  }

  function Taken(c: Rules, offer: nat): Fate { if c.room(offer) then Enqueued else Rejected }

  /** What may become of a line after reading: a staged one waits, or its peer's answer settles it, or it is
      offered here because the peer was not reached; and an offer is taken exactly if there is room. */
  predicate Follows(c: Rules, read: Fate, now: Fate, offer: Option<nat>) {
    if offer.Some? then
      now == Taken(c, offer.value) && if read.Staged? then c.outcome(read.peer) == Transport else now == read
    else if !read.Staged? then now == read && now != Enqueued
    else now == read || (c.outcome(read.peer) == Ok && now == Acknowledged)
         || (c.outcome(read.peer).Status? && now == Rejected)
  }

  function At(offer: map<nat, nat>, i: nat): Option<nat> { if i in offer then Some(offer[i]) else None }

  /** Every line has the fate it must have, given what reading made of it; `offer` has the number of the offer
      made for a line, and no two lines share one. */
  ghost predicate Accounted(c: Rules, read: seq<Fate>, fate: seq<Fate>, offer: map<nat, nat>, offers: nat) {
    && |read| == |fate|
    && (forall i | 0 <= i < |fate| :: Follows(c, read[i], fate[i], At(offer, i)))
    && (forall i | i in offer :: i < |fate| && offer[i] < offers)
    && (forall i, j | i in offer && j in offer && offer[i] == offer[j] :: i == j)
  }

  /** Reading one more line that is not offered. */
  lemma AccountedSnoc(c: Rules, read: seq<Fate>, fate: seq<Fate>, offer: map<nat, nat>, offers: nat, f: Fate)
    requires Accounted(c, read, fate, offer, offers) && f != Enqueued
    ensures Accounted(c, read + [f], fate + [f], offer, offers)
  {
  }

  /** Reading one more line that is offered. */
  lemma AccountedOffer(c: Rules, read: seq<Fate>, fate: seq<Fate>, offer: map<nat, nat>, offers: nat)
    requires Accounted(c, read, fate, offer, offers)
    ensures Accounted(c, read + [Taken(c, offers)], fate + [Taken(c, offers)], offer[|fate| := offers], offers + 1)
  {
    forall i | 0 <= i < |fate| ensures At(offer[|fate| := offers], i) == At(offer, i) { }
  }

  /** A line that waits was staged by reading, and has not been offered. */
  lemma WaitingIsStaged(c: Rules, read: seq<Fate>, fate: seq<Fate>, offer: map<nat, nat>, offers: nat, i: nat)
    requires Accounted(c, read, fate, offer, offers) && i < |fate| && fate[i].Staged?
    ensures read[i] == fate[i] && i !in offer
  {
    assert Follows(c, read[i], fate[i], At(offer, i));
  }

  /** A peer's answer settles its group. */
  lemma AccountedSettle(c: Rules, read: seq<Fate>, fate: seq<Fate>, offer: map<nat, nat>, offers: nat, peer: Text,
      f: Fate)
    requires Accounted(c, read, fate, offer, offers)
    requires (f == Acknowledged && c.outcome(peer) == Ok) || (f == Rejected && c.outcome(peer).Status?)
    ensures Accounted(c, read, Settle(fate, peer, f), offer, offers)
  {
    forall i | 0 <= i < |fate| ensures Follows(c, read[i], Settle(fate, peer, f)[i], At(offer, i)) {
      assert Follows(c, read[i], fate[i], At(offer, i));
      if fate[i] == Staged(peer) { WaitingIsStaged(c, read, fate, offer, offers, i); }
    }
  }

  /** A line whose peer was not reached is offered here. */
  lemma AccountedHere(c: Rules, read: seq<Fate>, fate: seq<Fate>, offer: map<nat, nat>, offers: nat, i: nat)
    requires Accounted(c, read, fate, offer, offers)
    requires i < |fate| && fate[i].Staged? && c.outcome(fate[i].peer) == Transport
    ensures Accounted(c, read, fate[i := Taken(c, offers)], offer[i := offers], offers + 1)
  {
    WaitingIsStaged(c, read, fate, offer, offers, i);
    forall k | 0 <= k < |fate| ensures Follows(c, read[k], fate[i := Taken(c, offers)][k], At(offer[i := offers], k)) {
      assert Follows(c, read[k], fate[k], At(offer, k));
    }
  }

  /** The group of a peer holds exactly the lines waiting for it, raw lines and events in step. */
  ghost predicate GroupOk(c: Rules, handled: seq<Text>, fate: seq<Fate>, peer: Text, g: Group) {
    var w := Waiting(fate, peer);
    && |g.raws| == |g.events| == |w|
    && forall k | 0 <= k < |w| ::
         && w[k] < |handled| && g.raws[k] == handled[w[k]]
         && |g.raws[k]| <= c.maxBytes && c.parse(handled[w[k]], w[k]) == Some(g.events[k])
         && c.owner(g.events[k].entity) == Some(peer)
  }

  ghost predicate Staging(c: Rules, handled: seq<Text>, fate: seq<Fate>, remote: map<Text, Group>) {
    && (forall p | p in remote :: GroupOk(c, handled, fate, p, remote[p]) && remote[p].raws != [])
    && (forall p: Text :: p in remote || Waiting(fate, p) == [])
  }

  /** Every event enqueued by the request is the parse of its own line, and no line was enqueued twice. */
  ghost predicate Sourced(c: Rules, handled: seq<Text>, fate: seq<Fate>, queue: seq<Event>, source: seq<nat>) {
    && |source| == |queue| && |handled| == |fate|
    && (forall k | 0 <= k < |source| ::
          source[k] < |handled| && fate[source[k]] == Enqueued
          && c.parse(handled[source[k]], source[k]) == Some(queue[k]))
    && (forall j, k | 0 <= j < k < |source| :: source[j] != source[k])
  }

  lemma GroupKept(c: Rules, handled: seq<Text>, fate: seq<Fate>, line: Text, f: Fate, peer: Text, g: Group)
    requires GroupOk(c, handled, fate, peer, g) && f != Staged(peer)
    ensures GroupOk(c, handled + [line], fate + [f], peer, g)
  {
    WaitingSnoc(fate, f, peer);
    assert Waiting(fate, peer) + [] == Waiting(fate, peer);
  }

  lemma GroupGrows(c: Rules, handled: seq<Text>, fate: seq<Fate>, line: Text, event: Event, peer: Text, g: Group)
    requires GroupOk(c, handled, fate, peer, g) && |handled| == |fate|
    requires |line| <= c.maxBytes && c.parse(line, |handled|) == Some(event) && c.owner(event.entity) == Some(peer)
    ensures GroupOk(c, handled + [line], fate + [Staged(peer)], peer, Group(g.raws + [line], g.events + [event]))
  {
    WaitingSnoc(fate, Staged(peer), peer);
  }

  /** A staged line belongs to a group. */
  lemma StagedHasGroup(c: Rules, handled: seq<Text>, fate: seq<Fate>, remote: map<Text, Group>, i: nat)
    requires Staging(c, handled, fate, remote) && i < |fate| && fate[i].Staged?
    ensures fate[i].peer in remote
  {
    WaitingAre(fate, fate[i].peer);
    assert i in Waiting(fate, fate[i].peer);
  }

  lemma NoteStaging(c: Rules, handled: seq<Text>, fate: seq<Fate>, remote: map<Text, Group>, line: Text, f: Fate)
    requires Staging(c, handled, fate, remote) && !f.Staged?
    ensures Staging(c, handled + [line], fate + [f], remote)
  {
    forall p | p in remote ensures GroupOk(c, handled + [line], fate + [f], p, remote[p]) {
      GroupKept(c, handled, fate, line, f, p, remote[p]);
    }
    forall p: Text ensures p in remote || Waiting(fate + [f], p) == [] { WaitingSnoc(fate, f, p); }
  }

  function Joined(remote: map<Text, Group>, peer: Text): Group {
    if peer in remote then remote[peer] else Group([], [])
  }

  function Grown(remote: map<Text, Group>, line: Text, event: Event, peer: Text): map<Text, Group> {
    var g := Joined(remote, peer);
    remote[peer := Group(g.raws + [line], g.events + [event])]
  }

  lemma StageStaging(c: Rules, handled: seq<Text>, fate: seq<Fate>, remote: map<Text, Group>,
                     line: Text, event: Event, peer: Text)
    requires Staging(c, handled, fate, remote) && |handled| == |fate|
    requires |line| <= c.maxBytes && c.parse(line, |handled|) == Some(event) && c.owner(event.entity) == Some(peer)
    ensures Staging(c, handled + [line], fate + [Staged(peer)], Grown(remote, line, event, peer))
  {
    var g := Joined(remote, peer);
    GroupGrows(c, handled, fate, line, event, peer, g);
    forall p | p in remote && p != peer ensures GroupOk(c, handled + [line], fate + [Staged(peer)], p, remote[p]) {
      GroupKept(c, handled, fate, line, Staged(peer), p, remote[p]);
    }
    forall p: Text ensures p in remote || p == peer || Waiting(fate + [Staged(peer)], p) == [] {
      WaitingSnoc(fate, Staged(peer), p);
    }
  }

  lemma NowStaged(c: Rules, handled: seq<Text>, fate: seq<Fate>, remote: map<Text, Group>,
                  line: Text, event: Event, peer: Text,
                  handled': seq<Text>, fate': seq<Fate>, remote': map<Text, Group>)
    requires Staging(c, handled, fate, remote) && |handled| == |fate|
    requires |line| <= c.maxBytes && c.parse(line, |handled|) == Some(event) && c.owner(event.entity) == Some(peer)
    requires handled' == handled + [line] && fate' == fate + [Staged(peer)]
    requires remote' == Grown(remote, line, event, peer)
    ensures Staging(c, handled', fate', remote')
  {
    StageStaging(c, handled, fate, remote, line, event, peer);
  }

  /** The groups of `remote` are in order; lines of `peer` may still be waiting outside it. */
  ghost predicate Others(c: Rules, handled: seq<Text>, fate: seq<Fate>, remote: map<Text, Group>, peer: Text) {
    && peer !in remote
    && (forall p | p in remote :: GroupOk(c, handled, fate, p, remote[p]) && remote[p].raws != [])
    && (forall p: Text :: p in remote || p == peer || Waiting(fate, p) == [])
  }

  lemma LeaveStaging(c: Rules, handled: seq<Text>, fate: seq<Fate>, remote: map<Text, Group>, peer: Text)
    requires Staging(c, handled, fate, remote) && peer in remote
    ensures Others(c, handled, fate, remote - {peer}, peer)
  {
  }

  /** Each event is the parse of its line. */
  ghost predicate Paired(c: Rules, handled: seq<Text>, w: seq<nat>, events: seq<Event>) {
    |events| == |w| && forall k | 0 <= k < |w| :: w[k] < |handled| && c.parse(handled[w[k]], w[k]) == Some(events[k])
  }

  lemma GroupPaired(c: Rules, handled: seq<Text>, fate: seq<Fate>, peer: Text, g: Group)
    requires GroupOk(c, handled, fate, peer, g)
    ensures Paired(c, handled, Waiting(fate, peer), g.events)
  {
  }

  lemma GroupUntouched(c: Rules, handled: seq<Text>, fate: seq<Fate>, fate': seq<Fate>, peer: Text, g: Group)
    requires GroupOk(c, handled, fate, peer, g) && Waiting(fate', peer) == Waiting(fate, peer)
    ensures GroupOk(c, handled, fate', peer, g)
  {
  }

  lemma ResolveStaging(c: Rules, handled: seq<Text>, fate: seq<Fate>, remote: map<Text, Group>, peer: Text, f: Fate)
    requires Others(c, handled, fate, remote, peer) && !f.Staged?
    ensures Staging(c, handled, Settle(fate, peer, f), remote)
  {
    SettleCounts(fate, peer, f);
    forall p | p in remote ensures GroupOk(c, handled, Settle(fate, peer, f), p, remote[p]) {
      GroupUntouched(c, handled, fate, Settle(fate, peer, f), p, remote[p]);
    }
  }

  lemma SettleSourced(c: Rules, handled: seq<Text>, fate: seq<Fate>, queue: seq<Event>, source: seq<nat>, peer: Text,
      f: Fate)
    requires Sourced(c, handled, fate, queue, source)
    ensures Sourced(c, handled, Settle(fate, peer, f), queue, source)
  {
  }

  lemma Settled(c: Rules, handled: seq<Text>, fate: seq<Fate>, remote: map<Text, Group>, queue: seq<Event>,
                source: seq<nat>, peer: Text, g: Fate) returns (settled: seq<Fate>)
    requires Others(c, handled, fate, remote, peer) && Sourced(c, handled, fate, queue, source)
    requires g == Acknowledged || g == Rejected
    ensures settled == Settle(fate, peer, g) && |settled| == |fate|
    ensures Staging(c, handled, settled, remote) && Sourced(c, handled, settled, queue, source)
    ensures Occ(settled, Enqueued) == Occ(fate, Enqueued)
    ensures Occ(settled, Acknowledged) ==
            Occ(fate, Acknowledged) + if g == Acknowledged then |Waiting(fate, peer)| else 0
    ensures Occ(settled, Rejected) == Occ(fate, Rejected) + if g == Rejected then |Waiting(fate, peer)| else 0
  {
    settled := Settle(fate, peer, g);
    SettleFollow(fate, peer, g);
    SettleSourced(c, handled, fate, queue, source, peer, g);
    ResolveStaging(c, handled, fate, remote, peer, g);
  }

  lemma SettleOneStaging(c: Rules, handled: seq<Text>, fate: seq<Fate>, remote: map<Text, Group>, peer: Text, f: Fate)
    requires Others(c, handled, fate, remote, peer) && !f.Staged?
    requires Waiting(fate, peer) != [] && Waiting(fate, peer)[0] < |fate|
    ensures Others(c, handled, fate[Waiting(fate, peer)[0] := f], remote, peer)
  {
    var fate' := fate[Waiting(fate, peer)[0] := f];
    SettleFirst(fate, peer, f);
    forall p | p in remote ensures GroupOk(c, handled, fate', p, remote[p]) {
      GroupUntouched(c, handled, fate, fate', p, remote[p]);
    }
  }

  lemma SourcedEnqueue(c: Rules, handled: seq<Text>, fate: seq<Fate>, queue: seq<Event>, source: seq<nat>,
                       line: Text, event: Event)
    requires Sourced(c, handled, fate, queue, source) && c.parse(line, |handled|) == Some(event)
    ensures Sourced(c, handled + [line], fate + [Enqueued], queue + [event], source + [|handled|])
  {
  }

  lemma SourcedNote(c: Rules, handled: seq<Text>, fate: seq<Fate>, queue: seq<Event>, source: seq<nat>, line: Text,
      f: Fate)
    requires Sourced(c, handled, fate, queue, source)
    ensures Sourced(c, handled + [line], fate + [f], queue, source)
  {
  }

  /** A line waiting for a peer is enqueued here after all. */
  lemma SourcedFallback(c: Rules, handled: seq<Text>, fate: seq<Fate>, queue: seq<Event>, source: seq<nat>,
                        i: nat, event: Event)
    requires Sourced(c, handled, fate, queue, source) && i < |fate| && fate[i].Staged?
    requires c.parse(handled[i], i) == Some(event)
    ensures Sourced(c, handled, fate[i := Enqueued], queue + [event], source + [i])
  {
  }

  /** A group's body reads back as the group's lines and is no longer than the lines handled. */
  lemma GroupBody(c: Rules, handled: seq<Text>, fate: seq<Fate>, peer: Text, g: Group)
    requires GroupOk(c, handled, fate, peer, g) && |handled| == |fate| && g.raws != []
    requires forall i | 0 <= i < |handled| :: Raw(handled[i])
    ensures SentOk(c, handled, Parcel(peer, g))
  {
    var w := Waiting(fate, peer);
    forall k | 0 <= k < |g.raws| ensures Raw(g.raws[k]) && g.raws[k] in handled && |g.raws[k]| <= c.maxBytes {
      assert g.raws[k] == handled[w[k]];
    }
    SplitJoin(g.raws);
    JoinWeighs(g.raws);
    WaitingWeight(handled, fate, peer, g.raws);
  }

  // ---- the request ----

  /** A body forwarded to a peer. */
  datatype Sent = Sent(peer: Text, raws: seq<Text>, body: Text)

  function Parcel(peer: Text, g: Group): Sent { Sent(peer, g.raws, Join(g.raws)) }

  /** A forwarded body reads back as its lines, and fits within the lines handled so far. */
  ghost predicate SentOk(c: Rules, handled: seq<Text>, m: Sent) {
    && Lines(m.body) == m.raws && |m.body| + 1 <= Weight(handled)
    && forall k | 0 <= k < |m.raws| :: Raw(m.raws[k]) && m.raws[k] in handled && |m.raws[k]| <= c.maxBytes
  }

  ghost predicate AllSentOk(c: Rules, handled: seq<Text>, sent: seq<Sent>) {
    forall k | 0 <= k < |sent| :: SentOk(c, handled, sent[k])
  }

  lemma AllSentSnoc(c: Rules, handled: seq<Text>, sent: seq<Sent>, m: Sent)
    requires AllSentOk(c, handled, sent) && SentOk(c, handled, m)
    ensures AllSentOk(c, handled, sent + [m])
  {
  }

  lemma AllSentLater(c: Rules, handled: seq<Text>, line: Text, sent: seq<Sent>)
    requires AllSentOk(c, handled, sent)
    ensures AllSentOk(c, handled + [line], sent)
  {
    WeightSnoc(handled, line);
    forall k | 0 <= k < |sent| ensures SentOk(c, handled + [line], sent[k]) {
      assert SentOk(c, handled, sent[k]);
    }
  }

  /** The group of `peer` is the last body sent. */
  ghost predicate Shipped(before: seq<Sent>, remote: map<Text, Group>, peer: Text, sent: seq<Sent>)
    requires peer in remote
  {
    sent == before + [Parcel(peer, remote[peer])]
  }

  /** Some peer answered 429. */
  ghost predicate PushedBack(c: Rules, sent: seq<Sent>) {
    exists k :: 0 <= k < |sent| && c.outcome(sent[k].peer) == Status(TOO_MANY_REQUESTS)
  }

  class BatchRequest {
    const rules: Rules

    var accepted: nat
    var forwarded: nat
    var rejected: nat
    var overloaded: bool
    var remote: map<Text, Group>
    var tickets: nat
    var offers: nat
    var queue: seq<Event>
    var sent: seq<Sent>
    ghost var handled: seq<Text>
    ghost var fate: seq<Fate>
    ghost var source: seq<nat>
    ghost var offer: map<nat, nat>   // the number of the offer made for a line

    constructor (rules: Rules)
      ensures Valid() && Pressure() && Reading() && Fair() && handled == [] && sent == [] && this.rules == rules
    {
      this.rules := rules;
      accepted, forwarded, rejected, overloaded, tickets, offers := 0, 0, 0, false, 0, 0;
      remote, queue, sent, handled, fate, source, offer := map[], [], [], [], [], [], map[];
    }

    /** The counters count fates, and every non-blank line has one. */
    ghost predicate Counted()
      reads `accepted, `forwarded, `rejected, `tickets, `queue, `handled, `fate
    {
      && |fate| == |handled| == tickets && (forall i | 0 <= i < |handled| :: Raw(handled[i]))
      && accepted == Occ(fate, Enqueued) == |queue|
      && forwarded == Occ(fate, Acknowledged)
      && rejected == Occ(fate, Rejected)
    }

    ghost predicate Valid()
      reads `accepted, `forwarded, `rejected, `tickets, `queue, `remote, `sent, `handled, `fate, `source
    {
      && Counted() && Sourced(rules, handled, fate, queue, source) && Staging(rules, handled, fate, remote)
      && AllSentOk(rules, handled, sent)
    }

    /** Overloaded means that an offer was refused here or a peer pushed back. */
    ghost predicate Pressure()
      reads `offers, `queue, `overloaded, `sent
    {
      offers >= |queue| && overloaded == (offers > |queue| || PushedBack(rules, sent))
    }

    /** Every line has the fate it must have. */
    ghost predicate Fair()
      reads `offers, `handled, `fate, `offer
    {
      Accounted(rules, ReadAll(rules, handled), fate, offer, offers)
    }

    /** While lines are read, overloaded means that the queue was full. */
    ghost predicate Reading()
      reads `offers, `overloaded, `handled, `fate
    {
      && overloaded == Full(rules, handled) && (!overloaded ==> offers == Offers(rules, handled))
      && fate == ReadAll(rules, handled)
    }

    /** Book a line with its fate; the counters follow at the caller. */
    ghost method Note(line: Text, f: Fate)
      requires |fate| == |handled| && (forall i | 0 <= i < |handled| :: Raw(handled[i])) && Raw(line)
      requires AllSentOk(rules, handled, sent)
      modifies `handled, `fate
      ensures handled == old(handled) + [line] && fate == old(fate) + [f] && CountsFollow(old(fate), f, fate)
      ensures forall i | 0 <= i < |handled| :: Raw(handled[i])
      ensures AllSentOk(rules, handled, sent)
    {
      CountsSnoc(fate, f);
      AllSentLater(rules, handled, line, sent);
      handled, fate := handled + [line], fate + [f];
    }

    method Reject(line: Text)
      requires Valid() && Raw(line)
      modifies `rejected, `tickets, `handled, `fate
      ensures Valid() && handled == old(handled) + [line] && fate == old(fate) + [Rejected]
    {
      NoteStaging(rules, handled, fate, remote, line, Rejected);
      SourcedNote(rules, handled, fate, queue, source, line, Rejected);
      tickets := tickets + 1;
      rejected := rejected + 1;
      Note(line, Rejected);
    }

    method AddTo(line: Text, event: Event, peer: Text)
      modifies `remote
      ensures remote == Grown(old(remote), line, event, peer)
    {
      if peer !in remote { remote := remote[peer := Group([], [])]; }
      remote := remote[peer := Group(remote[peer].raws + [line], remote[peer].events + [event])];
    }

    method Stage(line: Text, event: Event, peer: Text)
      requires Valid() && Raw(line) && |line| <= rules.maxBytes
      requires rules.parse(line, tickets) == Some(event) && rules.owner(event.entity) == Some(peer)
      modifies `remote, `tickets, `handled, `fate
      ensures Valid() && handled == old(handled) + [line] && fate == old(fate) + [Staged(peer)]
    {
      SourcedNote(rules, handled, fate, queue, source, line, Staged(peer));
      Note(line, Staged(peer));
      tickets := tickets + 1;
      AddTo(line, event, peer);
      NowStaged(rules, old(handled), old(fate), old(remote), line, event, peer, handled, fate, remote);
    }

    method Accept(line: Text, event: Event)
      requires Valid() && Raw(line) && rules.parse(line, tickets) == Some(event)
      modifies `accepted, `tickets, `queue, `source, `handled, `fate
      ensures Valid() && handled == old(handled) + [line] && fate == old(fate) + [Enqueued]
      ensures |queue| == |old(queue)| + 1
    {
      NoteStaging(rules, handled, fate, remote, line, Enqueued);
      SourcedEnqueue(rules, handled, fate, queue, source, line, event);
      queue := queue + [event];
      source := source + [tickets];
      tickets := tickets + 1;
      accepted := accepted + 1;
      Note(line, Enqueued);
    }

    /** A non-blocking offer to the pipeline: the line is enqueued exactly if there is room. */
    method Enqueue(line: Text, event: Event)
      requires Valid() && Pressure() && Raw(line) && rules.parse(line, tickets) == Some(event)
      modifies `accepted, `rejected, `overloaded, `tickets, `queue, `source, `handled, `fate, `offers, `offer
      ensures Valid() && Pressure() && handled == old(handled) + [line]
      ensures fate == old(fate) + [Taken(rules, old(offers))] && offer == old(offer)[|old(fate)| := old(offers)]
      ensures offers == old(offers) + 1 && overloaded == (old(overloaded) || !rules.room(old(offers)))
    {
      var ok := rules.room(offers);
      offer := offer[|fate| := offers];
      offers := offers + 1;
      if ok {
        Accept(line, event);
      } else {
        Reject(line);
        overloaded := true;
      }
    }

    /** One line: blank, oversized or refused lines stop here; others are enqueued or staged. */
    method Sort(line: Text)
      requires Valid() && Pressure() && Reading() && Raw(line)
      modifies `accepted, `rejected, `overloaded, `tickets, `queue, `source, `handled, `fate, `offers, `offer, `remote
      ensures Valid() && Pressure() && handled == old(handled) + [line]
      ensures fate == old(fate) + [ReadFate(rules, old(handled), line)]
      ensures if !old(overloaded) && Ours(rules, line, |old(handled)|)
              then offer == old(offer)[|old(fate)| := old(offers)] && offers == old(offers) + 1
                   && overloaded == !rules.room(old(offers))
              else offer == old(offer) && offers == old(offers) && overloaded == old(overloaded)
    {
      var parsed := rules.parse(line, tickets);
      if |line| > rules.maxBytes || overloaded || parsed.None? {
        Reject(line);
        return;
      }
      var event := parsed.value;
      var peer := Route(rules, event);
      if peer.Some? {
        Stage(line, event, peer.value);
      } else {
        Enqueue(line, event);
      }
    }

    method Line(line: Text)
      requires Valid() && Pressure() && Reading() && Fair() && (line == [] || Raw(line))
      modifies this
      ensures Valid() && Pressure() && Reading() && Fair() && sent == old(sent)
      ensures handled == old(handled) + if line == [] then [] else [line]
      ensures fate == old(fate) + if line == [] then [] else [ReadFate(rules, old(handled), line)]
    {
      if |line| == 0 { return; }
      ReadingSnoc(rules, handled, line);
      ghost var read, f := ReadAll(rules, handled), ReadFate(rules, handled, line);
      if !overloaded && Ours(rules, line, |handled|) {
        AccountedOffer(rules, read, fate, offer, offers);
      } else {
        AccountedSnoc(rules, read, fate, offer, offers, f);
      }
      Sort(line);
    }

    /** The group of `peer` has left `remote` and its lines are not settled yet. */
    ghost predicate InFlight(peer: Text)
      reads `accepted, `forwarded, `rejected, `tickets, `queue, `remote, `sent, `handled, `fate, `source
    {
      && Counted() && Sourced(rules, handled, fate, queue, source) && Others(rules, handled, fate, remote, peer)
      && AllSentOk(rules, handled, sent)
    }

    /** The peer answered for the whole sub-batch. */
    method Resolve(peer: Text, lines: nat, acknowledged: bool)
      requires InFlight(peer) && lines == |Waiting(fate, peer)|
      modifies `forwarded, `rejected, `fate
      ensures Valid() && fate == Settle(old(fate), peer, if acknowledged then Acknowledged else Rejected)
    {
      ghost var f := if acknowledged then Acknowledged else Rejected;
      ghost var settled := Settled(rules, handled, fate, remote, queue, source, peer, f);
      if acknowledged { forwarded := forwarded + lines; } else { rejected := rejected + lines; }
      fate := settled;
    }

    /** Settle the next line of a sub-batch that never arrived. */
    method SettleHere(peer: Text, event: Event, ok: bool)
      requires InFlight(peer) && Waiting(fate, peer) != [] && Waiting(fate, peer)[0] < |handled|
      requires rules.parse(handled[Waiting(fate, peer)[0]], Waiting(fate, peer)[0]) == Some(event)
      modifies `accepted, `rejected, `queue, `source, `fate
      ensures InFlight(peer) && Waiting(fate, peer) == old(Waiting(fate, peer))[1..]
      ensures fate == old(fate)[old(Waiting(fate, peer)[0]) := if ok then Enqueued else Rejected]
      ensures |queue| == |old(queue)| + if ok then 1 else 0
    {
      ghost var i, f := Waiting(fate, peer)[0], if ok then Enqueued else Rejected;
      WaitingAre(fate, peer);
      SettleFirst(fate, peer, f);
      SettleOneStaging(rules, handled, fate, remote, peer, f);
      if ok {
        SourcedFallback(rules, handled, fate, queue, source, i, event);
        accepted := accepted + 1;
        queue := queue + [event];
        source := source + [i];
      } else {
        rejected := rejected + 1;
      }
      fate := fate[i := f];
    }

    /** The next line of a sub-batch that never arrived is enqueued here exactly if there is room. */
    method OfferHere(peer: Text, event: Event)
      requires InFlight(peer) && Pressure() && Waiting(fate, peer) != [] && Waiting(fate, peer)[0] < |handled|
      requires rules.parse(handled[Waiting(fate, peer)[0]], Waiting(fate, peer)[0]) == Some(event)
      modifies `accepted, `rejected, `queue, `source, `fate, `offer, `offers, `overloaded
      ensures InFlight(peer) && Pressure() && Waiting(fate, peer) == old(Waiting(fate, peer))[1..]
      ensures fate == old(fate)[old(Waiting(fate, peer)[0]) := Taken(rules, old(offers))]
      ensures offer == old(offer)[old(Waiting(fate, peer)[0]) := old(offers)] && offers == old(offers) + 1
    {
      var ok := rules.room(offers);
      offer := offer[Waiting(fate, peer)[0] := offers];
      offers := offers + 1;
      SettleHere(peer, event, ok);
      if !ok { overloaded := true; }
    }

    /** The first `k` of the lines `w` are settled here and the others wait. */
    ghost predicate Halfway(peer: Text, w: seq<nat>, k: nat, first: nat)
      requires k <= |w|
      reads `accepted, `forwarded, `rejected, `tickets, `queue, `remote, `sent, `handled, `fate, `source,
            `offers, `offer, `overloaded
    {
      && InFlight(peer) && Pressure() && Fair() && Waiting(fate, peer) == w[k..]
      && offers == first + k && OfferedFrom(rules, fate, w, k, first)
    }

    method OfferNext(peer: Text, event: Event, ghost w: seq<nat>, ghost k: nat, ghost first: nat)
      requires k < |w| && Halfway(peer, w, k, first) && rules.outcome(peer) == Transport
      requires w[k] < |handled| && rules.parse(handled[w[k]], w[k]) == Some(event)
      modifies `accepted, `rejected, `queue, `source, `fate, `offer, `offers, `overloaded
      ensures Halfway(peer, w, k + 1, first)
    {
      assert w[k..][0] == w[k] && w[k..][1..] == w[k + 1..];
      OfferedNext(rules, fate, peer, w, k, first);
      AccountedHere(rules, ReadAll(rules, handled), fate, offer, offers, w[k]);
      OfferHere(peer, event);
    }

    /** Every line of the group is offered here, in order. */
    method Fallback(peer: Text, group: Group)
      requires InFlight(peer) && Pressure() && Fair() && GroupOk(rules, handled, fate, peer, group)
      requires rules.outcome(peer) == Transport
      modifies `accepted, `rejected, `queue, `source, `fate, `offer, `offers, `overloaded
      ensures Valid() && Pressure() && Fair()
      ensures OfferedFrom(rules, fate, old(Waiting(fate, peer)), |old(Waiting(fate, peer))|, old(offers))
          && offers == old(offers) + |group.events|
    {
      ghost var w, first := Waiting(fate, peer), offers;
      GroupPaired(rules, handled, fate, peer, group);
      assert w[0..] == w;
      for k := 0 to |group.events|
        invariant Halfway(peer, w, k, first) && Paired(rules, handled, w, group.events)
      {
        OfferNext(peer, group.events[k], w, k, first);
      }
    }

    /** The last body went to `peer`, and its answer is not in yet. */
    ghost predicate PressureBefore(peer: Text)
      reads `offers, `queue, `overloaded, `sent
    {
      && sent != [] && sent[|sent| - 1].peer == peer && offers >= |queue|
      && overloaded == (offers > |queue| || PushedBack(rules, sent[..|sent| - 1]))
    }

    /** Take a peer's group out and send its body. */
    method Dispatch(peer: Text) returns (group: Group)
      requires Valid() && Pressure() && peer in remote
      modifies `sent, `remote
      ensures PressureBefore(peer)
      ensures InFlight(peer) && remote == old(remote) - {peer} && group == old(remote[peer])
      ensures GroupOk(rules, handled, fate, peer, group)
      ensures Shipped(old(sent), old(remote), peer, sent)
    {
      group := remote[peer];
      GroupBody(rules, handled, fate, peer, group);
      AllSentSnoc(rules, handled, sent, Parcel(peer, group));
      LeaveStaging(rules, handled, fate, remote, peer);
      ghost var before := sent;
      sent := sent + [Parcel(peer, group)];
      remote := remote - {peer};
      assert sent[..|sent| - 1] == before;
    }

    /** A peer that got its group answers for all of it; a 429 is backpressure here too. */
    method Answered(peer: Text, lines: nat)
      requires InFlight(peer) && lines == |Waiting(fate, peer)| && !rules.outcome(peer).Transport?
      modifies `forwarded, `rejected, `fate, `overloaded
      ensures Valid()
      ensures fate == Settle(old(fate), peer, if rules.outcome(peer).Ok? then Acknowledged else Rejected)
      ensures overloaded == (old(overloaded) || rules.outcome(peer) == Status(TOO_MANY_REQUESTS))
    {
      Resolve(peer, lines, rules.outcome(peer).Ok?);
      if rules.outcome(peer) == Status(TOO_MANY_REQUESTS) { overloaded := true; }
    }

    method ConcludeUnreached(peer: Text, group: Group)
      requires InFlight(peer) && Fair() && GroupOk(rules, handled, fate, peer, group)
      requires PressureBefore(peer) && rules.outcome(peer).Transport?
      modifies `accepted, `rejected, `queue, `source, `fate, `offer, `offers, `overloaded
      ensures Valid() && Pressure() && Fair()
          && OfferedFrom(rules, fate, old(Waiting(fate, peer)), |old(Waiting(fate, peer))|, old(offers))
    {
      PushedBackLast(rules, sent);
      Fallback(peer, group);
    }

    method ConcludeAnswered(peer: Text, lines: nat)
      requires InFlight(peer) && Fair() && lines == |Waiting(fate, peer)|
      requires PressureBefore(peer) && !rules.outcome(peer).Transport?
      modifies `forwarded, `rejected, `fate, `overloaded
      ensures Valid() && Pressure() && Fair()
      ensures fate == Settle(old(fate), peer, if rules.outcome(peer).Ok? then Acknowledged else Rejected)
    {
      PushedBackLast(rules, sent);
      AccountedSettle(rules, ReadAll(rules, handled), fate, offer, offers, peer,
                      if rules.outcome(peer).Ok? then Acknowledged else Rejected);
      Answered(peer, lines);
    }

    /** Settle a group that has been sent.  An acknowledgement forwards its lines and a status rejects them; after
        a transport failure the lines are offered here. */
    method Conclude(peer: Text, group: Group)
      requires InFlight(peer) && Fair() && GroupOk(rules, handled, fate, peer, group) && PressureBefore(peer)
      modifies `accepted, `forwarded, `rejected, `queue, `source, `fate, `offer, `offers, `overloaded
      ensures Valid() && Pressure() && Fair() && AnsweredAs(rules, peer, old(fate), old(offers), fate)
    {
      if rules.outcome(peer).Transport? {
        ConcludeUnreached(peer, group);
      } else {
        ConcludeAnswered(peer, |group.raws|);
      }
    }

    /** Forward one peer's group. */
    method Forward(peer: Text)
      requires Valid() && Pressure() && Fair() && peer in remote
      modifies `accepted, `forwarded, `rejected, `overloaded, `remote, `offers, `queue, `sent, `fate, `source, `offer
      ensures Valid() && Pressure() && Fair() && remote == old(remote) - {peer}
      ensures Shipped(old(sent), old(remote), peer, sent)
      ensures AnsweredAs(rules, peer, old(fate), old(offers), fate)
    {
      var group := Dispatch(peer);
      Conclude(peer, group);
    }

    method ForwardNext(peer: Text)
      requires Valid() && Pressure() && Fair() && Delivered(ReadAll(rules, handled), handled, remote, sent)
      requires peer in remote
      modifies `accepted, `forwarded, `rejected, `overloaded, `remote, `offers, `queue, `sent, `fate, `source, `offer
      ensures Valid() && Pressure() && Fair() && Delivered(ReadAll(rules, handled), handled, remote, sent)
      ensures remote == old(remote) - {peer}
    {
      DeliveredStep(ReadAll(rules, handled), handled, remote, sent, peer);
      Forward(peer);
    }

    /** Forward every group, in any order: one body for each peer, with exactly the lines staged for it. */
    method ForwardAll()
      requires Valid() && Pressure() && Fair() && Delivered(ReadAll(rules, handled), handled, remote, sent)
      modifies `accepted, `forwarded, `rejected, `overloaded, `remote, `offers, `queue, `sent, `fate, `source, `offer
      ensures Valid() && Pressure() && Fair() && remote == map[]
      ensures Delivered(ReadAll(rules, handled), handled, remote, sent)
    {
      while remote != map[]
        invariant Valid() && Pressure() && Fair()
        invariant Delivered(ReadAll(rules, handled), handled, remote, sent)
        decreases |remote|
      {
        var peer :| peer in remote;
        ForwardNext(peer);
      }
    }

    ghost predicate Ready()
      reads this
    {
      Valid() && Pressure() && Reading() && Fair() && sent == []
    }

    /** One piece of the body between newlines. */
    method ReadPiece(piece: Text)
      requires Ready() && NEWLINE !in piece
      modifies this
      ensures Ready() && handled == old(handled) + Kept(piece)
    {
      TrimmedIsRaw(piece);
      Line(Trim(piece));
    }

    method ReadLines(body: Text, end: End)
      requires Ready() && handled == []
      modifies this
      ensures Ready() && handled == NonBlank(CompleteLines(body, end))
      ensures Delivered(ReadAll(rules, handled), handled, remote, sent)
    {
      var lines := Lines(body);
      LinesHaveNoNewline(body);
      var n := if end == Eof then |lines| else |lines| - 1;   // an error discards the unfinished line
      for i := 0 to n
        invariant Ready() && handled == NonBlank(lines[..i])
      {
        NonBlankNext(lines, i);
        ReadPiece(lines[i]);
      }
      assert lines[..n] == CompleteLines(body, end);
      StagedToDeliver(rules, handled, fate, remote);
    }

    /** The whole request: every complete line that was read, then every peer's group, in any order.  Every
        line is counted once and has the fate that it must have, and each peer with staged lines is sent one
        body, which holds exactly those lines in order. */
    method Handle(body: Text, end: End) returns (status: int)
      requires Ready() && handled == []
      modifies this
      ensures Valid() && remote == map[] && handled == NonBlank(CompleteLines(body, end))
      ensures accepted + forwarded + rejected == |handled| && accepted == |queue|
      ensures Fair() && forall i | 0 <= i < |fate| :: !fate[i].Staged?
      ensures overloaded <==> offers > |queue| || exists k ::
          0 <= k < |sent| && rules.outcome(sent[k].peer) == Status(429)
      ensures !rules.routed ==> sent == []
      ensures Delivered(ReadAll(rules, handled), handled, map[], sent)
      ensures forall k | 0 <= k < |sent| :: |sent[k].body| <= |body|
      ensures status == match end { case TooLarge => 413 case Broken => 400 case Eof => if overloaded then 429
          else 202 }
    {
      ReadLines(body, end);
      ForwardAll();
      AllSettled(fate, remote, rules, handled);
      BodiesFit(rules, body, end, handled, sent);
      if !rules.routed { NothingSent(rules, handled, sent); }
      status := match end { case TooLarge => ENTITY_TOO_LARGE case Broken => BAD_REQUEST
                            case Eof => if overloaded then TOO_MANY_REQUESTS else ACCEPTED };
    }
  }

  // ---- what is sent ----

  ghost predicate Picks(handled: seq<Text>, w: seq<nat>, raws: seq<Text>) {
    |raws| == |w| && forall k | 0 <= k < |w| :: w[k] < |handled| && raws[k] == handled[w[k]]
  }

  ghost predicate SentTo(sent: seq<Sent>, peer: Text) { exists k :: 0 <= k < |sent| && sent[k].peer == peer }

  /** Each peer with lines staged by reading has either its group or exactly one body that was sent to it, and that
      is exactly its lines, in order. */
  ghost predicate Delivered(read: seq<Fate>, handled: seq<Text>, remote: map<Text, Group>, sent: seq<Sent>) {
    && (forall p | p in remote :: remote[p].raws != [] && Picks(handled, Waiting(read, p), remote[p].raws))
    && (forall k | 0 <= k < |sent| ::
          && sent[k].peer !in remote && sent[k].raws != [] && sent[k].body == Join(sent[k].raws)
          && Picks(handled, Waiting(read, sent[k].peer), sent[k].raws))
    && (forall j, k | 0 <= j < k < |sent| :: sent[j].peer != sent[k].peer)
    && (forall i | 0 <= i < |read| && read[i].Staged? :: read[i].peer in remote || SentTo(sent, read[i].peer))
  }

  lemma StagedToDeliver(c: Rules, handled: seq<Text>, read: seq<Fate>, remote: map<Text, Group>)
    requires Staging(c, handled, read, remote)
    ensures Delivered(read, handled, remote, [])
  {
    forall i | 0 <= i < |read| && read[i].Staged? ensures read[i].peer in remote {
      StagedHasGroup(c, handled, read, remote, i);
    }
  }

  lemma SentToGrows(sent: seq<Sent>, m: Sent, peer: Text)
    requires SentTo(sent, peer) || m.peer == peer
    ensures SentTo(sent + [m], peer)
  {
    if SentTo(sent, peer) {
      var k :| 0 <= k < |sent| && sent[k].peer == peer;
      assert (sent + [m])[k].peer == peer;
    } else {
      assert (sent + [m])[|sent|].peer == peer;
    }
  }

  lemma DeliveredStep(read: seq<Fate>, handled: seq<Text>, remote: map<Text, Group>, sent: seq<Sent>, peer: Text)
    requires Delivered(read, handled, remote, sent) && peer in remote
    ensures Delivered(read, handled, remote - {peer}, sent + [Parcel(peer, remote[peer])])
  {
    var m := Parcel(peer, remote[peer]);
    forall i | 0 <= i < |read| && read[i].Staged?
      ensures read[i].peer in remote - {peer} || SentTo(sent + [m], read[i].peer)
    {
      if read[i].peer !in remote || read[i].peer == peer { SentToGrows(sent, m, read[i].peer); }
    }
  }

  /** Which lines are staged, and for whom. */
  lemma StagedIff(c: Rules, before: seq<Text>, line: Text, peer: Text)
    ensures ReadFate(c, before, line) == Staged(peer) <==>
            && !Full(c, before) && |line| <= c.maxBytes && c.routed
            && c.parse(line, |before|).Some? && c.owner(c.parse(line, |before|).value.entity) == Some(peer)
  {
  }

  /** Which lines this node offers to its own queue: those it owns, and all of them where it may not route. */
  lemma OursIff(c: Rules, line: Text, number: nat)
    ensures Ours(c, line, number) <==>
            && |line| <= c.maxBytes && c.parse(line, number).Some?
            && (c.routed ==> c.owner(c.parse(line, number).value.entity) == None)
  {
  }

  lemma {:induction false} NothingStaged(c: Rules, lines: seq<Text>, peer: Text)
    requires !c.routed
    ensures Waiting(ReadAll(c, lines), peer) == []
  {
    if lines != [] {
      var before := lines[..|lines| - 1];
      NothingStaged(c, before, peer);
      StagedIff(c, before, lines[|lines| - 1], peer);
      WaitingSnoc(ReadAll(c, before), ReadFate(c, before, lines[|lines| - 1]), peer);
    }
  }

  /** The one-hop bound: a request that was forwarded already, whatever its lines and whoever owns them, is not
      sent on. */
  lemma NothingSent(c: Rules, handled: seq<Text>, sent: seq<Sent>)
    requires !c.routed && Delivered(ReadAll(c, handled), handled, map[], sent)
    ensures sent == []
  {
    if sent != [] { NothingStaged(c, handled, sent[0].peer); }
  }

  /** Instead every line that fits is offered to this node's queue, until the queue is full. */
  lemma ForwardedStaysHere(c: Rules, handled: seq<Text>, fate: seq<Fate>, offer: map<nat, nat>, offers: nat, i: nat)
    requires Accounted(c, ReadAll(c, handled), fate, offer, offers) && i < |fate| && !c.routed
    requires !Full(c, handled[..i]) && |handled[i]| <= c.maxBytes && c.parse(handled[i], i).Some?
    ensures fate[i] == if c.room(Offers(c, handled[..i])) then Enqueued else Rejected
    ensures Ours(c, handled[i], i)
  {
    ReadAt(c, handled, i);
    OursIff(c, handled[i], i);
    assert Follows(c, ReadAll(c, handled)[i], fate[i], At(offer, i));
  }

  /** A line reported forwarded is in the one body that its peer was sent, and the peer answered 2xx. */
  lemma ForwardedWasSent(c: Rules, handled: seq<Text>, fate: seq<Fate>, offer: map<nat, nat>, offers: nat,
                         sent: seq<Sent>, i: nat)
    requires Accounted(c, ReadAll(c, handled), fate, offer, offers)
    requires Delivered(ReadAll(c, handled), handled, map[], sent) && i < |fate| && fate[i] == Acknowledged
    ensures exists k :: 0 <= k < |sent| && handled[i] in sent[k].raws && c.outcome(sent[k].peer) == Ok
  {
    var read := ReadAll(c, handled);
    ReadAt(c, handled, i);
    assert Follows(c, read[i], fate[i], At(offer, i));
    var k :| 0 <= k < |sent| && sent[k].peer == read[i].peer;
    var w := Waiting(read, sent[k].peer);
    WaitingAre(read, sent[k].peer);
    assert i in w;
    var n :| 0 <= n < |w| && w[n] == i;
    assert sent[k].raws[n] == handled[i];
  }

  lemma PushedBackLast(c: Rules, sent: seq<Sent>)
    requires sent != []
    ensures PushedBack(c, sent) ==
            (PushedBack(c, sent[..|sent| - 1]) || c.outcome(sent[|sent| - 1].peer) == Status(TOO_MANY_REQUESTS))
  {
    PushedBackSnoc(c, sent[..|sent| - 1], sent[|sent| - 1]);
    assert sent == sent[..|sent| - 1] + [sent[|sent| - 1]];
  }

  lemma PushedBackSnoc(c: Rules, sent: seq<Sent>, m: Sent)
    ensures PushedBack(c, sent + [m]) == (PushedBack(c, sent) || c.outcome(m.peer) == Status(TOO_MANY_REQUESTS))
  {
    if PushedBack(c, sent) {
      var k :| 0 <= k < |sent| && c.outcome(sent[k].peer) == Status(TOO_MANY_REQUESTS);
      assert (sent + [m])[k] == sent[k];
    }
    assert (sent + [m])[|sent|] == m;
  }

  /** The first `n` of the lines `w` were the offers from `first` on. */
  ghost predicate OfferedFrom(c: Rules, fate: seq<Fate>, w: seq<nat>, n: nat, first: nat) {
    forall k | 0 <= k < n && k < |w| :: w[k] < |fate| && fate[w[k]] == Taken(c, first + k)
  }

  /** What a peer's answer makes of its lines. */
  ghost predicate AnsweredAs(c: Rules, peer: Text, fate: seq<Fate>, offers: nat, fate': seq<Fate>) {
    match c.outcome(peer)
    case Ok => fate' == Settle(fate, peer, Acknowledged)
    case Status(_) => fate' == Settle(fate, peer, Rejected)
    case Transport => OfferedFrom(c, fate', Waiting(fate, peer), |Waiting(fate, peer)|, offers)
  }

  /** Offering the next waiting line leaves the earlier ones as they are. */
  lemma OfferedNext(c: Rules, fate: seq<Fate>, peer: Text, w: seq<nat>, k: nat, first: nat)
    requires k < |w| && OfferedFrom(c, fate, w, k, first) && Waiting(fate, peer) == w[k..]
    ensures w[k] < |fate| && fate[w[k]] == Staged(peer)
    ensures OfferedFrom(c, fate[w[k] := Taken(c, first + k)], w, k + 1, first)
  {
    WaitingAre(fate, peer);
    assert Waiting(fate, peer)[0] == w[k];
  }

  // ---- what the account means ----

  lemma {:induction false} FullStays(c: Rules, lines: seq<Text>, n: nat)
    requires n <= |lines| && Full(c, lines[..n])
    ensures Full(c, lines)
  {
    if n == |lines| {
      assert lines[..n] == lines;
    } else {
      assert lines[..|lines| - 1][..n] == lines[..n];
      FullStays(c, lines[..|lines| - 1], n);
    }
  }

  lemma {:induction false} ReadAt(c: Rules, lines: seq<Text>, i: nat)
    requires i < |lines|
    ensures ReadAll(c, lines)[i] == ReadFate(c, lines[..i], lines[i])
  {
    var n := |lines| - 1;
    if i < n {
      ReadAt(c, lines[..n], i);
      assert lines[..n][..i] == lines[..i];
    }
  }

  /** On backpressure the remainder is rejected: the line that found the queue full and every line after it. */
  lemma RemainderRejected(c: Rules, handled: seq<Text>, fate: seq<Fate>, offer: map<nat, nat>, offers: nat, i: nat,
      j: nat)
    requires Accounted(c, ReadAll(c, handled), fate, offer, offers) && i <= j < |handled|
    requires Ours(c, handled[i], i) && !c.room(Offers(c, handled[..i]))
    ensures fate[j] == Rejected
  {
    ReadAt(c, handled, j);
    assert Follows(c, ReadAll(c, handled)[j], fate[j], At(offer, j));
    if i < j {
      var head := handled[..j][..i + 1];
      assert head[..i] == handled[..i] && head[i] == handled[i];
      FullStays(c, handled[..j], i + 1);
    }
  }

  /** Until then a line's fate is decided by the line, its owner and that peer's answer, whatever the other
      lines are; only a line that comes back from an unreached peer depends on the queue once more. */
  lemma CalmFate(c: Rules, handled: seq<Text>, fate: seq<Fate>, offer: map<nat, nat>, offers: nat, i: nat)
    requires Accounted(c, ReadAll(c, handled), fate, offer, offers)
    requires i < |fate| && !fate[i].Staged? && !Full(c, handled[..i + 1])
    ensures !Fit(c, handled[i], i) ==> fate[i] == Rejected
    ensures Ours(c, handled[i], i) ==> fate[i] == Enqueued
    ensures Fit(c, handled[i], i) && !Ours(c, handled[i], i) ==>
              match c.outcome(Route(c, c.parse(handled[i], i).value).value)
              case Ok => fate[i] == Acknowledged
              case Status(_) => fate[i] == Rejected
              case Transport => i in offer && fate[i] == Taken(c, offer[i])
  {
    ReadAt(c, handled, i);
    assert handled[..i + 1][..i] == handled[..i];
    assert Follows(c, ReadAll(c, handled)[i], fate[i], At(offer, i));
  }

  lemma AllSettled(fate: seq<Fate>, remote: map<Text, Group>, c: Rules, handled: seq<Text>)
    requires Staging(c, handled, fate, remote) && remote == map[]
    ensures forall i | 0 <= i < |fate| :: !fate[i].Staged?
    ensures Occ(fate, Enqueued) + Occ(fate, Acknowledged) + Occ(fate, Rejected) == |fate|
  {
    forall i | 0 <= i < |fate| ensures !fate[i].Staged? {
      if fate[i].Staged? { StagedHasGroup(c, handled, fate, remote, i); }
    }
    SettledAll(fate);
  }

  lemma BodiesFit(c: Rules, body: Text, end: End, handled: seq<Text>, sent: seq<Sent>)
    requires handled == NonBlank(CompleteLines(body, end))
    requires AllSentOk(c, handled, sent)
    ensures Weight(handled) <= |body| + 1 && forall k | 0 <= k < |sent| :: |sent[k].body| <= |body|
  {
    var lines := Lines(body);
    LinesHaveNoNewline(body);
    LinesWeigh(body);
    NonBlankWeight(CompleteLines(body, end));
    PrefixWeight(lines, |lines| - 1);
    forall k | 0 <= k < |sent| ensures |sent[k].body| <= |body| {
      assert SentOk(c, handled, sent[k]);
    }
  }

  /** The same limits on both sides: whatever one node forwards, the peer reads within its own body limit, as
      exactly those lines, in order, each within its line limit. */
  lemma PeerReadsTheGroup(c: Rules, body: Text, end: End, m: Sent, limit: nat)
    requires SentOk(c, NonBlank(CompleteLines(body, end)), m) && |body| <= limit
    ensures |m.body| <= limit && NonBlank(Lines(m.body)) == m.raws
    ensures forall k | 0 <= k < |m.raws| :: |m.raws[k]| <= c.maxBytes
  {
    BodiesFit(c, body, end, NonBlank(CompleteLines(body, end)), [m]);
    assert [m][0] == m;
    NonBlankOfRaws(m.raws);
  }

  lemma NonBlankSnoc(lines: seq<Text>, line: Text)
    ensures NonBlank(lines + [line]) == NonBlank(lines) + Kept(line)
  {
    assert (lines + [line])[..|lines|] == lines;
  }

  lemma KeptRaw(raw: Text)
    requires Raw(raw)
    ensures Kept(raw) == [raw]
  {
    RawIsTrimmed(raw);
  }

  lemma {:induction false} NonBlankOfRaws(raws: seq<Text>)
    requires forall k | 0 <= k < |raws| :: Raw(raws[k])
    ensures NonBlank(raws) == raws
  {
    if raws != [] {
      var init, last := raws[..|raws| - 1], raws[|raws| - 1];
      assert raws == init + [last];
      NonBlankOfRaws(init);
      KeptRaw(last);
      NonBlankSnoc(init, last);
    }
  }
}
