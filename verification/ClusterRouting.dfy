/**
 A cluster of any number of nodes that route events by whatever peer lists they
 have: an event is handled where it was submitted, or staged in a group for one other
 node, which serves the group without forwarding it again.  A single event, posted on
 its own, is a group of one that is no batch.  `visits` and `placed` record which nodes
 handled an event and which put it in their queue.
 */
module ClusterRouting {

  type Node = nat

  datatype Told = Nothing | Accepted | Forwarded | Rejected

  datatype Phase =
    | Handling(at: Node)              // at the node it was submitted to
    | InGroup(group: nat, index: nat) // staged or sent to the owning peer
    | Local(at: Node)                 // the peer was not reached; to be offered here
    | Done

  datatype Event = Event(size: nat, phase: Phase, visits: seq<Node>, placed: seq<Node>, told: Told)

  datatype Answer = Ok | Status | Transport

  datatype Group = Group(
    origin: Node, peer: Node, batch: bool, lines: nat,
    sent: bool, pos: nat, refused: bool,    // the peer has served `pos` lines; it will not answer 202
    answer: Answer, answered: bool, closed: bool)

  /** `recognised`: the origin can tell a status answer from a transport failure.
      `limit`: the longest event a node takes, in bytes. */
  datatype State = State(events: seq<Event>, groups: seq<Group>, recognised: bool, limit: Node -> nat)

  datatype Action =
    | Submit(at: Node, size: nat)
    | Take(event: nat, room: bool)      // this node owns it, or there is no router, or it is too long
    | Open(origin: Node, peer: Node, batch: bool)
    | Stage(event: nat, group: nat)     // any peer: the peer lists may diverge
    | Send(group: nat)
    | Serve(event: nat, room: bool)     // the peer handles a forwarded line itself
    | Reply(group: nat)                 // 202, or a status after a refusal
    | Refuse(group: nat)                // any other status, at any point
    | Lose(group: nat)                  // transport failure: the peer got nothing
    | Conclude(group: nat)
    | Offer(event: nat, room: bool)

  predicate Live(s: State, g: nat) { g < |s.groups| && s.groups[g].sent && !s.groups[g].answered }

  predicate Enabled(s: State, a: Action) {
    match a
    case Submit(_, _) => true
    case Take(e, _) => e < |s.events| && s.events[e].phase.Handling?
    case Open(_, _, _) => true
    case Stage(e, g) =>
      && e < |s.events| && s.events[e].phase.Handling? && g < |s.groups|
      && !s.groups[g].sent && s.groups[g].origin == s.events[e].phase.at
      && s.events[e].size <= s.limit(s.events[e].phase.at) && (s.groups[g].batch || s.groups[g].lines == 0)
    case Send(g) => g < |s.groups| && !s.groups[g].sent
    case Serve(e, _) =>
      && e < |s.events| && s.events[e].phase.InGroup? && Live(s, s.events[e].phase.group)
      && s.events[e].phase.index == s.groups[s.events[e].phase.group].pos
    case Reply(g) => Live(s, g) && s.groups[g].pos == s.groups[g].lines
    case Refuse(g) => Live(s, g)
    case Lose(g) => Live(s, g) && s.groups[g].pos == 0
    case Conclude(g) => g < |s.groups| && s.groups[g].answered && !s.groups[g].closed
    case Offer(e, _) => e < |s.events| && s.events[e].phase.Local?
  }

  /** An offer to the queue of node `n`, and what the client is told. */
  function Offered(ev: Event, n: Node, room: bool): Event {
    if room then ev.(phase := Done, placed := ev.placed + [n], told := Accepted)
    else ev.(phase := Done, told := Rejected)
  }

  /** What the answer for a group means for one of its events. */
  function Concluded(ev: Event, g: nat, origin: Node, answer: Answer, recognised: bool): Event {
    if !(ev.phase.InGroup? && ev.phase.group == g) then ev
    else if answer.Ok? then ev.(phase := Done, told := Forwarded)
    else if answer.Status? && recognised then ev.(phase := Done, told := Rejected)
    else ev.(phase := Local(origin))
  }

  function ConcludeAll(events: seq<Event>, g: nat, origin: Node, answer: Answer, recognised: bool): (r: seq<Event>)
    ensures |r| == |events|
    ensures forall e | 0 <= e < |events| :: r[e] == Concluded(events[e], g, origin, answer, recognised)
  {
    if events == [] then []
    else
      ConcludeAll(events[..|events| - 1], g, origin, answer, recognised)
      + [Concluded(events[|events| - 1], g, origin, answer, recognised)]
  }

  function Apply(s: State, a: Action): State
    requires Enabled(s, a)
  {
    match a
    case Submit(n, size) => s.(events := s.events + [Event(size, Handling(n), [n], [], Nothing)])
    case Take(e, room) =>
      var ev := s.events[e];
      s.(events := s.events[e := Offered(ev, ev.phase.at, room && ev.size <= s.limit(ev.phase.at))])
    case Open(n, p, batch) => s.(groups := s.groups + [Group(n, p, batch, 0, false, 0, false, Ok, false, false)])
    case Stage(e, g) =>
      var x := s.groups[g];
      s.(events := s.events[e := s.events[e].(phase := InGroup(g, x.lines))],
         groups := s.groups[g := x.(lines := x.lines + 1)])
    case Send(g) => s.(groups := s.groups[g := s.groups[g].(sent := true)])
    case Serve(e, room) =>
      var g := s.events[e].phase.group;
      var x, ev := s.groups[g], s.events[e];
      var ev' := ev.(visits := ev.visits + [x.peer]);
      if ev.size > s.limit(x.peer) then     // in a batch, rejected alone
        s.(events := s.events[e := ev'],
           groups := s.groups[g := x.(pos := x.pos + 1, refused := x.refused || !x.batch)])
      else if x.refused || !room then
        s.(events := s.events[e := ev'], groups := s.groups[g := x.(pos := x.pos + 1, refused := true)])
      else
        s.(events := s.events[e := ev'.(placed := ev.placed + [x.peer])], groups := s.groups[g := x.(pos := x.pos + 1)])
    case Reply(g) =>
      var x := s.groups[g];
      s.(groups := s.groups[g := x.(answered := true, answer := if x.refused then Status else Ok)])
    case Refuse(g) => s.(groups := s.groups[g := s.groups[g].(answered := true, answer := Status)])
    case Lose(g) => s.(groups := s.groups[g := s.groups[g].(answered := true, answer := Transport)])
    case Conclude(g) =>
      var x := s.groups[g];
      s.(events := ConcludeAll(s.events, g, x.origin, x.answer, s.recognised),
         groups := s.groups[g := x.(closed := true)])
    case Offer(e, room) => s.(events := s.events[e := Offered(s.events[e], s.events[e].phase.at, room)])
  }

  ghost predicate Init(s: State) { s.events == [] && s.groups == [] }

  ghost predicate Next(s: State, s': State) {
    exists a :: Enabled(s, a) && s' == Apply(s, a)
  }

  ghost predicate Run(run: seq<State>) {
    && |run| > 0 && Init(run[0])
    && forall k | 0 <= k < |run| - 1 :: Next(run[k], run[k + 1])
  }

  // ---- what every step keeps ----

  /** An event of a group: served exactly if its turn has come. */
  ghost predicate MemberOk(ev: Event, x: Group, index: nat, limit: Node -> nat) {
    && index < x.lines && !x.closed && ev.told == Nothing && ev.size <= limit(x.origin)
    && (index >= x.pos ==> ev.visits == [x.origin] && ev.placed == [])
    && (index < x.pos ==> ev.visits == [x.origin, x.peer] && (ev.placed == [] || ev.placed == [x.peer]))
    && (index < x.pos && !x.refused ==> ev.placed == if ev.size <= limit(x.peer) then [x.peer] else [])
  }

  /** What the client was told is so: told accepted, the event is in some queue; told forwarded, it is in the
      second node's queue alone if it is within that node's limit, and otherwise in none. */
  ghost predicate ToldTruly(ev: Event, limit: Node -> nat) {
    && 1 <= |ev.visits| <= 2 && |ev.placed| <= 2
    && (ev.told == Accepted ==> |ev.placed| >= 1)
    && (ev.told == Forwarded ==>
          && |ev.visits| == 2 && ev.size <= limit(ev.visits[0])
          && ev.placed == if ev.size <= limit(ev.visits[1]) then [ev.visits[1]] else [])
  }

  ghost predicate EventOk(s: State, e: nat)
    requires e < |s.events|
  {
    var ev := s.events[e];
    match ev.phase
    case Handling(n) => ev.visits == [n] && ev.placed == [] && ev.told == Nothing
    case InGroup(g, k) => g < |s.groups| && MemberOk(ev, s.groups[g], k, s.limit)
    case Local(n) => 1 <= |ev.visits| <= 2 && |ev.placed| <= 1 && ev.told == Nothing
    case Done => ToldTruly(ev, s.limit)
  }

  /** Not enqueued twice, and not about to be. */
  ghost predicate Once(ev: Event) { |ev.placed| <= 1 && (ev.phase.Local? ==> ev.placed == []) }

  ghost predicate GroupOk(x: Group) {
    && x.pos <= x.lines && (!x.sent ==> x.pos == 0 && !x.answered) && (x.closed ==> x.answered)
    && (x.answered && x.answer.Ok? ==> x.pos == x.lines && !x.refused)
    && (x.answered && x.answer.Transport? ==> x.pos == 0)
  }

  /** No two events hold the same place in a group. */
  ghost predicate Distinct(s: State) {
    forall e, f | 0 <= e < |s.events| && 0 <= f < |s.events| && e != f && s.events[e].phase.InGroup? ::
      s.events[e].phase != s.events[f].phase
  }

  ghost predicate Inv(s: State) {
    && (forall e | 0 <= e < |s.events| :: EventOk(s, e))
    && (forall g | 0 <= g < |s.groups| :: GroupOk(s.groups[g]))
    && Distinct(s)
  }

  /** A refusal of a group that the origin takes for a transport failure, although the peer placed event `e`. */
  ghost predicate Misread(s: State, e: nat) {
    && !s.recognised && e < |s.events| && s.events[e].phase.InGroup? && s.events[e].placed != []
    && s.events[e].phase.group < |s.groups|
    && s.groups[s.events[e].phase.group].answered && s.groups[s.events[e].phase.group].answer.Status?
  }

  lemma GroupsStep(s: State, a: Action)
    requires Inv(s) && Enabled(s, a)
    ensures forall g | 0 <= g < |Apply(s, a).groups| :: GroupOk(Apply(s, a).groups[g])
  {
    var s' := Apply(s, a);
    if a.Serve? {
      assert EventOk(s, a.event);
    }
    forall g | 0 <= g < |s'.groups| ensures GroupOk(s'.groups[g]) {
      if g < |s.groups| { assert GroupOk(s.groups[g]); }
    }
  }

  lemma DistinctStep(s: State, a: Action)
    requires Inv(s) && Enabled(s, a)
    ensures Distinct(Apply(s, a))
  {
    var s' := Apply(s, a);
    forall e, f | 0 <= e < |s'.events| && 0 <= f < |s'.events| && e != f && s'.events[e].phase.InGroup?
      ensures s'.events[e].phase != s'.events[f].phase
    {
      if e < |s.events| { assert EventOk(s, e); }
      if f < |s.events| { assert EventOk(s, f); }
    }
  }

  /** Serving one line changes nothing for the other members of its group. */
  lemma OthersUnserved(s: State, e: nat, room: bool, f: nat)
    requires Inv(s) && Enabled(s, Serve(e, room)) && f < |s.events| && f != e
    ensures EventOk(Apply(s, Serve(e, room)), f)
  {
    assert EventOk(s, f) && EventOk(s, e);
    assert s.events[e].phase != s.events[f].phase;
  }

  lemma ConcludeStep(s: State, g: nat, e: nat)
    requires Inv(s) && Enabled(s, Conclude(g)) && e < |s.events|
    ensures EventOk(Apply(s, Conclude(g)), e)
  {
    assert EventOk(s, e) && GroupOk(s.groups[g]);
  }

  lemma ServedStep(s: State, e: nat, room: bool)
    requires Inv(s) && Enabled(s, Serve(e, room))
    ensures EventOk(Apply(s, Serve(e, room)), e)
  {
    assert EventOk(s, e);
  }

  lemma StageStep(s: State, f: nat, g: nat, e: nat)
    requires Inv(s) && Enabled(s, Stage(f, g)) && e < |s.events|
    ensures EventOk(Apply(s, Stage(f, g)), e)
  {
    assert EventOk(s, e) && EventOk(s, f) && GroupOk(s.groups[g]);
  }

  /** Sending, answering and losing a group leave its members as they are. */
  lemma AnswerStep(s: State, a: Action, e: nat)
    requires Inv(s) && Enabled(s, a) && (a.Send? || a.Reply? || a.Refuse? || a.Lose? || a.Open?) && e < |s.events|
    ensures EventOk(Apply(s, a), e)
  {
    assert EventOk(s, e);
  }

  lemma OfferStep(s: State, a: Action, e: nat)
    requires Inv(s) && Enabled(s, a) && (a.Take? || a.Offer? || a.Submit?) && e < |Apply(s, a).events|
    ensures EventOk(Apply(s, a), e)
  {
    if e < |s.events| { assert EventOk(s, e); }
  }

  lemma EventsStep(s: State, a: Action, e: nat)
    requires Inv(s) && Enabled(s, a) && e < |Apply(s, a).events|
    ensures EventOk(Apply(s, a), e)
  {
    if a.Serve? {
      if e != a.event { OthersUnserved(s, a.event, a.room, e); } else { ServedStep(s, e, a.room); }
    } else if a.Conclude? {
      ConcludeStep(s, a.group, e);
    } else if a.Stage? {
      StageStep(s, a.event, a.group, e);
    } else if a.Take? || a.Offer? || a.Submit? {
      OfferStep(s, a, e);
    } else {
      AnswerStep(s, a, e);
    }
  }

  lemma InvStep(s: State, s': State)
    requires Inv(s) && Next(s, s')
    ensures Inv(s')
  {
    var a :| Enabled(s, a) && s' == Apply(s, a);
    GroupsStep(s, a);
    DistinctStep(s, a);
    forall e | 0 <= e < |s'.events| ensures EventOk(s', e) { EventsStep(s, a, e); }
  }

  lemma {:induction false} InvAlong(run: seq<State>, k: nat)
    requires Run(run) && k < |run|
    ensures Inv(run[k])
  {
    if k > 0 {
      InvAlong(run, k - 1);
      assert Next(run[k - 1], run[k - 1 + 1]);
      InvStep(run[k - 1], run[k]);
    }
  }

  /** Over every run, with any peer lists and limits and with statuses recognised or not: an event visits at most
      two nodes and is enqueued at most twice, and what the client was told of it is so. */
  lemma AlwaysToldTruly(run: seq<State>, e: nat)
    requires Run(run) && e < |run[|run| - 1].events|
    ensures ToldTruly(run[|run| - 1].events[e], run[|run| - 1].limit)
  {
    InvAlong(run, |run| - 1);
    assert EventOk(run[|run| - 1], e);
  }

  // ---- at most once ----

  lemma OnceConcluded(s: State, g: nat, e: nat)
    requires Inv(s) && Enabled(s, Conclude(g)) && !Misread(s, e) && e < |s.events| && Once(s.events[e])
    ensures Once(Apply(s, Conclude(g)).events[e])
  {
    assert EventOk(s, e) && GroupOk(s.groups[g]);
  }

  lemma OnceOtherwise(s: State, a: Action, e: nat)
    requires Inv(s) && Enabled(s, a) && !a.Conclude? && e < |s.events| && Once(s.events[e])
    ensures Once(Apply(s, a).events[e])
  {
    assert EventOk(s, e);
  }

  /** One event stays enqueued at most once as long as no status is misread after its placement. */
  lemma OnceStep(s: State, s': State, e: nat)
    requires Inv(s) && Next(s, s') && !Misread(s, e)
    requires e < |s.events| ==> Once(s.events[e])
    ensures e < |s'.events| ==> Once(s'.events[e])
  {
    var a :| Enabled(s, a) && s' == Apply(s, a);
    if e < |s.events| {
      if a.Conclude? { OnceConcluded(s, a.group, e); } else { OnceOtherwise(s, a, e); }
    }
  }

  lemma {:induction false} OnceAlong(run: seq<State>, k: nat, e: nat)
    requires Run(run) && k < |run| && (forall j | 0 <= j < k :: !Misread(run[j], e))
    ensures e < |run[k].events| ==> Once(run[k].events[e])
  {
    if k > 0 {
      OnceAlong(run, k - 1, e);
      InvAlong(run, k - 1);
      assert Next(run[k - 1], run[k - 1 + 1]);
      OnceStep(run[k - 1], run[k], e);
    }
  }

  /** Over every run: an event of which no status is misread is enqueued on at most one node. */
  lemma AtMostOnce(run: seq<State>, e: nat)
    requires Run(run) && (forall j | 0 <= j < |run| :: !Misread(run[j], e)) && e < |run[|run| - 1].events|
    ensures |run[|run| - 1].events[e].placed| <= 1
  {
    OnceAlong(run, |run| - 1, e);
  }

  lemma {:induction false} WiringAlong(run: seq<State>, k: nat)
    requires Run(run) && k < |run|
    ensures run[k].recognised == run[0].recognised && run[k].limit == run[0].limit
  {
    if k > 0 {
      WiringAlong(run, k - 1);
      assert Next(run[k - 1], run[k - 1 + 1]);
    }
  }

  /** The intended wiring, where a status answer is recognised, needs no hypothesis. */
  lemma AtMostOnceAsIntended(run: seq<State>, e: nat)
    requires Run(run) && run[0].recognised && e < |run[|run| - 1].events|
    ensures |run[|run| - 1].events[e].placed| <= 1
  {
    forall j | 0 <= j < |run| ensures !Misread(run[j], e) { WiringAlong(run, j); }
    AtMostOnce(run, e);
  }

  // ---- as wired ----

  lemma Extend(run: seq<State>, a: Action)
    requires Run(run) && Enabled(run[|run| - 1], a)
    ensures Run(run + [Apply(run[|run| - 1], a)])
  {
    var run' := run + [Apply(run[|run| - 1], a)];
    forall k | 0 <= k < |run'| - 1 ensures Next(run'[k], run'[k + 1]) {
      if k < |run| - 1 { assert Next(run[k], run[k + 1]); }
    }
  }

  /** A misread refusal is exactly what breaks it: from every such state, two steps enqueue the event again. */
  lemma MisreadDuplicates(run: seq<State>, e: nat) returns (run': seq<State>)
    requires Run(run) && Misread(run[|run| - 1], e)
    ensures Run(run') && run <= run' && |run'| == |run| + 2
    ensures e < |run'[|run'| - 1].events| && |run'[|run'| - 1].events[e].placed| == 2
  {
    var s := run[|run| - 1];
    InvAlong(run, |run| - 1);
    assert EventOk(s, e);
    var g := s.events[e].phase.group;
    Extend(run, Conclude(g));
    run' := run + [Apply(s, Conclude(g))];
    var t := run'[|run'| - 1];
    Extend(run', Offer(e, true));
    run' := run' + [Apply(t, Offer(e, true))];
  }

  lemma Go(run: seq<State>, a: Action) returns (run': seq<State>)
    requires Run(run) && Enabled(run[|run| - 1], a)
    ensures Run(run') && run <= run' && run'[0] == run[0] && run'[|run'| - 1] == Apply(run[|run| - 1], a)
  {
    Extend(run, a);
    run' := run + [Apply(run[|run| - 1], a)];
  }

  /** Two lines in a batch for node 1, which has one free place. */
  lemma HalfServed(limit: Node -> nat) returns (run: seq<State>)
    ensures Run(run) && run[0] == State([], [], false, limit)
    ensures var s := run[|run| - 1];
            && !s.recognised && s.groups == [Group(0, 1, true, 2, true, 1, false, Ok, false, false)] && s.limit == limit
            && |s.events| == 2 && s.events[0].phase == InGroup(0, 0) && s.events[0].placed == [1]
            && s.events[1].phase == InGroup(0, 1) && s.events[1].size == 0
  {
    run := [State([], [], false, limit)];
    run := Go(run, Submit(0, 0));
    run := Go(run, Submit(0, 0));
    run := Go(run, Open(0, 1, true));
    run := Go(run, Stage(0, 0));
    run := Go(run, Stage(1, 0));
    run := Go(run, Send(0));
    run := Go(run, Serve(0, true));
    assert run[|run| - 1].groups == [Group(0, 1, true, 2, true, 1, false, Ok, false, false)];
  }

  /** As wired, where no answer of a peer is recognised, two lines and one free place are enough. */
  lemma DuplicateAsWired(limit: Node -> nat) returns (run: seq<State>)
    ensures Run(run) && !run[0].recognised && run[0].limit == limit
    ensures var s := run[|run| - 1]; |s.events| == 2 && s.events[0].placed == [1, 0]
  {
    run := HalfServed(limit);
    run := Go(run, Serve(1, false));
    run := Go(run, Reply(0));
    run := Go(run, Conclude(0));
    run := Go(run, Offer(0, true));
  }

  // ---- and events do get placed ----

  /** What a submission at node `n` comes to when its own queue has room, or has none, or the event is too long. */
  lemma TakenHere(run: seq<State>, n: Node, size: nat, room: bool) returns (run': seq<State>, e: nat)
    requires Run(run)
    ensures Run(run') && run <= run' && e < |run'[|run'| - 1].events|
    ensures var ev := run'[|run'| - 1].events[e];
            && ev.size == size && ev.visits == [n] && ev.phase.Done?
            && (room && size <= run[|run| - 1].limit(n) ==> ev.placed == [n] && ev.told == Accepted)
            && (!room || size > run[|run| - 1].limit(n) ==> ev.placed == [] && ev.told == Rejected)
  {
    e := |run[|run| - 1].events|;
    run' := Go(run, Submit(n, size));
    run' := Go(run', Take(e, room));
    assert [] + [n] == [n];
  }

  /** A line on its way to node `p`, alone in its group, and what became of it there. */
  lemma Carried(run: seq<State>, n: Node, p: Node, size: nat, batch: bool) returns (run': seq<State>, e: nat, g: nat)
    requires Run(run) && size <= run[|run| - 1].limit(n)
    ensures Run(run') && run <= run' && run'[|run'| - 1].recognised == run[|run| - 1].recognised
    ensures run'[|run'| - 1].limit == run[|run| - 1].limit
    ensures var s := run'[|run'| - 1];
            && e == |run[|run| - 1].events| == |s.events| - 1
                && s.events[e] == Event(size, InGroup(g, 0), [n], [], Nothing)
            && g < |s.groups| && s.groups[g] == Group(n, p, batch, 1, true, 0, false, Ok, false, false)
  {
    e, g := |run[|run| - 1].events|, |run[|run| - 1].groups|;
    run' := Go(run, Submit(n, size));
    run' := Go(run', Open(n, p, batch));
    run' := Go(run', Stage(e, g));
    run' := Go(run', Send(g));
  }

  /** Forwarding works: with room at the owner and within its limit, a forwarded event is in the owner's queue alone
      and the client is told so. */
  lemma ForwardWorks(run: seq<State>, n: Node, p: Node, size: nat, batch: bool) returns (run': seq<State>, e: nat)
    requires Run(run) && size <= run[|run| - 1].limit(n) && size <= run[|run| - 1].limit(p)
    ensures Run(run') && run <= run' && e < |run'[|run'| - 1].events|
    ensures run'[|run'| - 1].events[e] == Event(size, Done, [n, p], [p], Forwarded)
  {
    var g;
    run', e, g := Carried(run, n, p, size, batch);
    run' := Go(run', Serve(e, true));
    run' := Go(run', Reply(g));
    run' := Go(run', Conclude(g));
    assert [n] + [p] == [n, p] && [] + [p] == [p];
  }

  /** A full owner pushes back: recognised, the event is rejected and in no queue. */
  lemma FullOwnerRejects(run: seq<State>, n: Node, p: Node, size: nat, batch: bool) returns (run': seq<State>, e: nat)
    requires Run(run) && size <= run[|run| - 1].limit(n) && size <= run[|run| - 1].limit(p)
    requires run[|run| - 1].recognised
    ensures Run(run') && run <= run' && e < |run'[|run'| - 1].events|
    ensures run'[|run'| - 1].events[e] == Event(size, Done, [n, p], [], Rejected)
  {
    var g;
    run', e, g := Carried(run, n, p, size, batch);
    run' := Go(run', Serve(e, false));
    run' := Go(run', Reply(g));
    run' := Go(run', Conclude(g));
    assert [n] + [p] == [n, p];
  }

  /** An owner that is not reached is no loss: the event is offered where it was submitted. */
  lemma UnreachedFallsBack(run: seq<State>, n: Node, p: Node, size: nat, batch: bool, room: bool)
      returns (run': seq<State>, e: nat)
    requires Run(run) && size <= run[|run| - 1].limit(n)
    ensures Run(run') && run <= run' && e < |run'[|run'| - 1].events|
    ensures run'[|run'| - 1].events[e] ==
            if room then Event(size, Done, [n], [n], Accepted) else Event(size, Done, [n], [], Rejected)
  {
    var g;
    run', e, g := Carried(run, n, p, size, batch);
    run' := Go(run', Lose(g));
    run' := Go(run', Conclude(g));
    run' := Go(run', Offer(e, room));
    assert [] + [n] == [n];
  }

  // ---- twice ----

  ghost predicate Twice(s: State) { exists e :: 0 <= e < |s.events| && |s.events[e].placed| >= 2 }

  /** Some run enqueues an event twice if and only if statuses are not recognised, whatever the limits are. */
  lemma TwiceIffUnrecognised(limit: Node -> nat, recognised: bool)
    ensures (exists run: seq<State> ::
               Run(run) && run[0].recognised == recognised && run[0].limit == limit && Twice(run[|run| - 1]))
            <==> !recognised
  {
    if !recognised {
      var run := DuplicateAsWired(limit);
      assert |run[|run| - 1].events[0].placed| >= 2;
    } else if run: seq<State> :| Run(run) && run[0].recognised && Twice(run[|run| - 1]) {
      var e :| 0 <= e < |run[|run| - 1].events| && |run[|run| - 1].events[e].placed| >= 2;
      AtMostOnceAsIntended(run, e);
    }
  }

  // ---- forwarded to nowhere ----

  /** The client was told that an event was forwarded, and no node has it. */
  ghost predicate Nowhere(s: State) {
    exists e :: 0 <= e < |s.events| && s.events[e].told == Forwarded && s.events[e].placed == []
  }

  /** A peer with a smaller limit drops a line of a batch and still answers 202, whichever way statuses are read. */
  lemma ForwardedNowhere(limit: Node -> nat, recognised: bool, n: Node, p: Node, size: nat) returns (run: seq<State>)
    requires limit(p) < size <= limit(n)
    ensures Run(run) && run[0].recognised == recognised && run[0].limit == limit && Nowhere(run[|run| - 1])
    ensures var s := run[|run| - 1]; |s.events| == 1 && s.events[0].size == size && s.events[0].visits == [n, p]
  {
    run := [State([], [], recognised, limit)];
    var e, g;
    run, e, g := Carried(run, n, p, size, true);
    run := Go(run, Serve(0, true));
    run := Go(run, Reply(g));
    run := Go(run, Conclude(g));
    assert run[|run| - 1].events[0].told == Forwarded;
    assert [n] + [p] == [n, p];
  }

  lemma NowhereNeedsLimits(run: seq<State>)
    requires Run(run) && Nowhere(run[|run| - 1])
    ensures exists n: Node, p: Node :: run[0].limit(p) < run[0].limit(n)
  {
    var s := run[|run| - 1];
    var e :| 0 <= e < |s.events| && s.events[e].told == Forwarded && s.events[e].placed == [];
    AlwaysToldTruly(run, e);
    WiringAlong(run, |run| - 1);
    assert run[0].limit(s.events[e].visits[1]) < run[0].limit(s.events[e].visits[0]);
  }

  /** Whichever way statuses are read, some run reports an event forwarded that no node has, if and only if two
      nodes have different limits. */
  lemma NowhereIff(limit: Node -> nat, recognised: bool)
    ensures (exists run: seq<State> ::
               Run(run) && run[0].recognised == recognised && run[0].limit == limit && Nowhere(run[|run| - 1]))
            <==> (exists n: Node, p: Node :: limit(n) != limit(p))
  {
    if n: Node, p: Node :| limit(n) != limit(p) {
      var run;
      if limit(p) < limit(n) { run := ForwardedNowhere(limit, recognised, n, p, limit(n)); }
      else { run := ForwardedNowhere(limit, recognised, p, n, limit(p)); }
      assert Run(run) && run[0].recognised == recognised && run[0].limit == limit && Nowhere(run[|run| - 1]);
    }
    if run: seq<State> :| Run(run) && run[0].limit == limit && Nowhere(run[|run| - 1]) {
      NowhereNeedsLimits(run);
      var n: Node, p: Node :| run[0].limit(p) < run[0].limit(n);
      assert limit(n) != limit(p);
    }
  }
}
