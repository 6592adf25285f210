/**
 One worker that evaluates the rules of one event after another on a single reused
 interpreter thread, while deadline callbacks cancel that thread from outside.

 `observed` lists which event's evaluation was aborted by which cancellation, `grants`
 the step budgets with which evaluations started, and `lateStarts` counts evaluations
 of the current event that started after its deadline had fired.  `tooEarly` says that
 the current event's callback was through before the flag was last cleared.
 */
module EvalCancel {
  import opened Options

  const RULE_STEP_BUDGET := 10_000_000

  /** A deadline callback: waiting, started but not through, through (its done channel closed), or stopped. */
  datatype Timer = Armed | Fired | Through | Stopped

  datatype Source = Deadline(event: nat) | StepBudget(event: nat)

  datatype Pc =
    | Between                 // no event
    | Choosing                // before the next rule of the event
    | Checked                 // the deadline was checked for this rule
    | Cleared                 // after Uncancel
    | Granted                 // after SetMaxExecutionSteps
    | Running
    | Waiting                 // stop() came too late; waiting for the callback

  datatype State = State(
    timers: seq<Timer>,       // one for each event so far; the last is the current one
    pc: Pc, cancelled: Option<Source>, steps: nat, maxSteps: nat, stepsExceeded: bool, tooEarly: bool,
    observed: seq<(nat, Source)>, grants: seq<int>, lateStarts: nat)

  datatype Action =
    | BeginEvent
    | Fire(event: nat) | Callback(event: nat)
    | CheckDeadline | Uncancel | Grant | Call
    | Step | Exhaust | Abort | Return
    | EndEvent | Wait

  function Current(s: State): nat
    requires s.timers != []
  {
    |s.timers| - 1
  }

  /** The event's context is done. */
  predicate Expired(t: Timer) { t.Fired? || t.Through? }

  predicate Enabled(s: State, a: Action) {
    match a
    case BeginEvent => s.pc.Between?
    case Fire(e) => e < |s.timers| && s.timers[e].Armed?
    case Callback(e) => e < |s.timers| && s.timers[e].Fired?
    case CheckDeadline => s.pc.Choosing? && s.timers != []
    case Uncancel => s.pc.Checked? && s.timers != []
    case Grant => s.pc.Cleared?
    case Call => s.pc.Granted? && s.timers != []
    case Step => s.pc.Running? && s.cancelled.None? && s.steps < s.maxSteps
    case Exhaust => s.pc.Running? && s.steps >= s.maxSteps && s.timers != []
    case Abort => s.pc.Running? && s.cancelled.Some? && s.timers != []
    case Return => s.pc.Running?
    case EndEvent => s.pc.Choosing? && s.timers != []
    case Wait => s.pc.Waiting? && s.timers != [] && s.timers[Current(s)].Through?
  }

  /** Cancel keeps the first reason. */
  function Cancel(s: State, source: Source): State {
    if s.cancelled.None? then s.(cancelled := Some(source)) else s
  }

  function Apply(s: State, a: Action): State
    requires Enabled(s, a)
  {
    match a
    case BeginEvent => s.(timers := s.timers + [Armed], pc := Choosing, lateStarts := 0)
    case Fire(e) => s.(timers := s.timers[e := Fired])
    case Callback(e) => Cancel(s.(timers := s.timers[e := Through]), Deadline(e))
    case CheckDeadline =>   // an expired rule fails unrun
      if Expired(s.timers[Current(s)]) then s else s.(pc := Checked)
    case Uncancel =>
      s.(cancelled := None, stepsExceeded := false, tooEarly := s.timers[Current(s)].Through?, pc := Cleared)
    case Grant => s.(maxSteps := s.steps + RULE_STEP_BUDGET, pc := Granted)
    case Call =>
      s.(pc := Running, grants := s.grants + [s.maxSteps - s.steps],
         lateStarts := s.lateStarts + if Expired(s.timers[Current(s)]) then 1 else 0)
    case Step => s.(steps := s.steps + 1)
    case Exhaust => Cancel(s.(stepsExceeded := true), StepBudget(Current(s)))
    case Abort => s.(pc := Choosing, observed := s.observed + [(Current(s), s.cancelled.value)])
    case Return => s.(pc := Choosing)
    case EndEvent =>
      if s.timers[Current(s)].Armed? then s.(timers := s.timers[Current(s) := Stopped], pc := Between)
      else s.(pc := Waiting)
    case Wait => s.(pc := Between)
  }

  ghost predicate Init(s: State) {
    && s.timers == [] && s.pc == Between && s.cancelled == None && s.steps == 0 && s.maxSteps == 0
    && !s.stepsExceeded && !s.tooEarly && s.observed == [] && s.grants == [] && s.lateStarts == 0
  }

  ghost predicate Next(s: State, s': State) {
    exists a :: Enabled(s, a) && s' == Apply(s, a)
  }

  ghost predicate Run(run: seq<State>) {
    && |run| > 0 && Init(run[0])
    && forall k | 0 <= k < |run| - 1 :: Next(run[k], run[k + 1])
  }

  // ---- what every step keeps ----

  predicate Settled(t: Timer) { t.Through? || t.Stopped? }

  /** No callback of an earlier event is still to come. */
  ghost predicate TimersOk(s: State) {
    && (s.timers == [] ==> s.pc.Between?)
    && (forall e | 0 <= e < |s.timers| - 1 :: Settled(s.timers[e]))
    && (s.timers != [] && s.pc.Between? ==> Settled(s.timers[Current(s)]))
    && (s.timers != [] && !s.pc.Between? ==> !s.timers[Current(s)].Stopped?)
    && (s.pc.Waiting? ==> Expired(s.timers[Current(s)]))
  }

  /** Between Uncancel and the end of the rule. */
  predicate Evaluating(s: State) { s.timers != [] && (s.pc.Cleared? || s.pc.Granted? || s.pc.Running?) }

  /** Once a rule's cancellation flag is cleared, only the current event can set it: its step budget, or its
      deadline unless that came too early. */
  ghost predicate FlagOk(s: State) {
    && (s.pc.Cleared? || s.pc.Granted? || s.pc.Running? ==> s.timers != [])
    && (Evaluating(s) ==>
          && (s.cancelled.Some? ==> s.cancelled.value.event == Current(s))
          && (s.cancelled.Some? && s.cancelled.value.Deadline? ==> !s.tooEarly)
          && (s.tooEarly ==> s.timers[Current(s)].Through?)
          && (s.cancelled.None? <==> (s.timers[Current(s)].Through? ==> s.tooEarly) && !s.stepsExceeded))
  }

  ghost predicate LateOk(s: State) {
    && s.lateStarts <= 1
    && (s.pc.Checked? || s.pc.Cleared? || s.pc.Granted? ==> s.lateStarts == 0)
    && (s.lateStarts == 1 && !s.pc.Between? ==> s.timers != [] && Expired(s.timers[Current(s)]))
  }

  ghost predicate BudgetOk(s: State) {
    && (s.pc.Granted? ==> s.maxSteps == s.steps + RULE_STEP_BUDGET)
    && (s.pc.Running? ==> s.steps <= s.maxSteps)
    && forall k | 0 <= k < |s.grants| :: s.grants[k] == RULE_STEP_BUDGET
  }

  ghost predicate ObservedOk(s: State) {
    forall k | 0 <= k < |s.observed| :: s.observed[k].1.event == s.observed[k].0
  }

  ghost predicate Inv(s: State) {
    TimersOk(s) && FlagOk(s) && LateOk(s) && BudgetOk(s) && ObservedOk(s)
  }

  lemma TimersStep(s: State, a: Action)
    requires TimersOk(s) && Enabled(s, a)
    ensures TimersOk(Apply(s, a))
    ensures a.Fire? || a.Callback? ==> !s.pc.Between? && a.event == Current(s)
  {
    if a.Fire? || a.Callback? {
      assert !Settled(s.timers[a.event]);
    }
  }

  lemma FlagStep(s: State, a: Action)
    requires TimersOk(s) && FlagOk(s) && Enabled(s, a)
    requires a.Fire? || a.Callback? ==> a.event == Current(s)
    ensures FlagOk(Apply(s, a))
  {
  }

  lemma LateStep(s: State, a: Action)
    requires TimersOk(s) && LateOk(s) && Enabled(s, a)
    requires a.Fire? || a.Callback? ==> a.event == Current(s)
    ensures LateOk(Apply(s, a))
  {
  }

  lemma BudgetStep(s: State, a: Action)
    requires BudgetOk(s) && FlagOk(s) && ObservedOk(s) && Enabled(s, a)
    ensures BudgetOk(Apply(s, a)) && ObservedOk(Apply(s, a))
  {
  }

  lemma InvStep(s: State, s': State)
    requires Inv(s) && Next(s, s')
    ensures Inv(s')
  {
    var a :| Enabled(s, a) && s' == Apply(s, a);
    TimersStep(s, a);
    FlagStep(s, a);
    LateStep(s, a);
    BudgetStep(s, a);
  }

  lemma {:induction false} InvAlong(run: seq<State>, k: nat)
    requires Run(run) && k < |run|
    ensures Inv(run[k])
  {
    if k > 0 {
      InvAlong(run, k - 1);
      assert Next(run[k - 1], run[k - 1 + 1]);
      InvStep(run[k - 1], run[k]);
    }
  }

  /** Over every run of a worker, whenever the callbacks come: no rule is aborted by a cancellation that
      belongs to another event, at most one evaluation of an event starts after its deadline, and every
      evaluation starts with exactly the fixed budget above the steps accumulated so far. */
  lemma CancellationsStayWithTheirEvent(run: seq<State>)
    requires Run(run)
    ensures var s := run[|run| - 1];
            && (forall k | 0 <= k < |s.observed| :: s.observed[k].1.event == s.observed[k].0)
            && s.lateStarts <= 1
            && (forall k | 0 <= k < |s.grants| :: s.grants[k] == 10_000_000)
            && (s.pc.Running? ==> s.steps <= s.maxSteps)
  {
    InvAlong(run, |run| - 1);
  }

  /** When a rule is left to run: in every run and at every moment of an evaluation, the flag is clear if and
      only if the step budget lasts and the deadline's callback either is still to come or came before the flag
      was cleared; and after such an early callback nothing but the step budget ever sets it. */
  lemma LeftRunningIff(run: seq<State>)
    requires Run(run) && Evaluating(run[|run| - 1])
    ensures var s := run[|run| - 1];
            && (s.cancelled.None? <==> (s.timers[Current(s)].Through? ==> s.tooEarly) && !s.stepsExceeded)
            && (s.tooEarly ==> s.cancelled in {None, Some(StepBudget(Current(s)))})
  {
    InvAlong(run, |run| - 1);
  }

  /** A rule that uses up its budget is cancelled by it and by nothing else, if the flag was clear. */
  lemma ExhaustCancels(run: seq<State>)
    requires Run(run) && Enabled(run[|run| - 1], Exhaust) && run[|run| - 1].cancelled.None?
    ensures var s, s' := run[|run| - 1], Apply(run[|run| - 1], Exhaust);
            && s'.cancelled == Some(StepBudget(Current(s))) && s'.stepsExceeded && Enabled(s', Abort)
            && Apply(s', Abort).observed == s.observed + [(Current(s), StepBudget(Current(s)))]
  {
    InvAlong(run, |run| - 1);
  }

  /** No rule runs forever: from the start of an evaluation exactly the fixed number of steps fit, and then only
      the budget's own cancellation (or a return) is left. */
  lemma RunawayIsStopped(run: seq<State>) returns (run': seq<State>)
    requires Run(run) && run[|run| - 1].pc.Granted? && run[|run| - 1].cancelled.None?
    ensures Run(run') && run <= run'
    ensures var s, s' := run[|run| - 1], run'[|run'| - 1];
            && s'.pc.Running? && s'.steps == s.steps + 10_000_000 && !Enabled(s', Step) && Enabled(s', Exhaust)
            && s'.cancelled.None?
  {
    InvAlong(run, |run| - 1);
    var s := run[|run| - 1];
    run' := Go(run, Call);
    var called := run'[|run'| - 1];
    var i := 0;
    while i < RULE_STEP_BUDGET
      invariant 0 <= i <= RULE_STEP_BUDGET && Run(run') && run <= run'
      invariant run'[|run'| - 1] == called.(steps := s.steps + i)
    {
      run' := Go(run', Step);
      i := i + 1;
    }
  }

  lemma Go(run: seq<State>, a: Action) returns (run': seq<State>)
    requires Run(run) && Enabled(run[|run| - 1], a)
    ensures Run(run') && run <= run' && run'[|run'| - 1] == Apply(run[|run| - 1], a)
  {
    run' := run + [Apply(run[|run| - 1], a)];
    forall k | 0 <= k < |run'| - 1 ensures Next(run'[k], run'[k + 1]) {
      if k < |run| - 1 { assert Next(run[k], run[k + 1]); }
    }
  }

  /** The bound is tight: a callback that lands between the deadline check and Uncancel is forgotten, and
      that one rule runs after the deadline with nothing but its step budget to stop it. */
  lemma OneLateStart() returns (run: seq<State>)
    ensures Run(run)
    ensures var s := run[|run| - 1]; s.pc.Running? && s.lateStarts == 1 && s.tooEarly && s.cancelled == None
  {
    run := [State([], Between, None, 0, 0, false, false, [], [], 0)];
    run := Go(run, BeginEvent);
    run := Go(run, CheckDeadline);
    run := Go(run, Fire(0));
    run := Go(run, Callback(0));
    run := Go(run, Uncancel);
    run := Go(run, Grant);
    run := Go(run, Call);
  }
}
