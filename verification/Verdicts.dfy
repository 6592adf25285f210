/**
 From rule outcomes to the final verdict of an event.
 */
module Verdicts {
  import opened Options

  type Verdict = string

  const APPROVE: Verdict := "approve"
  const BLOCK: Verdict := "block"
  const REVIEW: Verdict := "review"

  function VerdictWeight(v: Verdict): nat {
    if v == BLOCK then 3 else if v == REVIEW then 2 else if v == APPROVE then 1 else 0
  }

  predicate Known(v: Verdict) { v == APPROVE || v == BLOCK || v == REVIEW }

  // ---- what a rule returns ----

  datatype Value = Str(text: string) | Other

  /** A returned value: a struct with optional fields, or something else. */
  datatype Returned = Struct(kind: Option<Value>, reason: Option<Value>) | NotAStruct

  datatype Outcome = Verdict(verdict: Verdict, reason: string) | Error

  /** Whatever a rule returns, the outcome is an error or the one of the three verdicts that it names. */
  function InterpretVerdict(v: Returned): (r: Outcome)
    ensures r.Verdict? ==> v == Struct(Some(Str(r.verdict)), Some(Str(r.reason)))
    ensures r.Verdict? ==> r.verdict == "approve" || r.verdict == "block" || r.verdict == "review"
    ensures r.Verdict? <==> v.Struct? && v.kind.Some? && v.kind.value.Str? && Known(v.kind.value.text)
                            && v.reason.Some? && v.reason.value.Str?
  {
    if !v.Struct? || v.kind.None? || !v.kind.value.Str? || v.reason.None? || !v.reason.value.Str? then Error
    else if Known(v.kind.value.text) then Verdict(v.kind.value.text, v.reason.value.text)
    else Error
  }

  // ---- resolution ----

  datatype RuleResult = RuleResult(ruleId: string, priority: int, verdict: Verdict)

  /** Lexicographic order on (priority, weight). */
  predicate AtMost(a: RuleResult, b: RuleResult) {
    a.priority < b.priority || (a.priority == b.priority && VerdictWeight(a.verdict) <= VerdictWeight(b.verdict))
  }

  ghost predicate Top(triggered: seq<RuleResult>, v: Verdict) {
    if triggered == [] then v == APPROVE
    else exists t | t in triggered :: t.verdict == v && forall u | u in triggered :: AtMost(u, t)
  }

  /** Some result of the highest priority has this verdict. */
  ghost predicate Says(triggered: seq<RuleResult>, v: Verdict) {
    exists t | t in triggered :: t.verdict == v && forall u | u in triggered :: u.priority <= t.priority
  }

  /** Among the results of the highest priority, block beats review and review beats approve. */
  lemma TopSays(triggered: seq<RuleResult>, v: Verdict)
    requires Top(triggered, v)
    ensures Says(triggered, "block") ==> v == "block"
    ensures !Says(triggered, "block") && Says(triggered, "review") ==> v == "review"
    ensures triggered != [] ==> Says(triggered, v)
    ensures triggered == [] ==> v == "approve"
  {
    if triggered != [] {
      var t :| t in triggered && t.verdict == v && forall u | u in triggered :: AtMost(u, t);
      assert forall u | u in triggered :: u.priority <= t.priority;
      if Says(triggered, "block") {
        var b :| b in triggered && b.verdict == "block" && forall u | u in triggered :: u.priority <= b.priority;
        HeaviestIs(v, "block");
      } else if Says(triggered, "review") {
        var r :| r in triggered && r.verdict == "review" && forall u | u in triggered :: u.priority <= r.priority;
        HeaviestIs(v, "review");
      }
    }
  }

  lemma HeaviestIs(v: Verdict, w: Verdict)
    requires VerdictWeight(w) <= VerdictWeight(v)
    ensures w == "block" ==> v == "block"
    ensures w == "review" ==> v == "review" || v == "block"
  {
  }

  /** One pass, keeping the best so far: a highest-priority result, the heaviest among those. */
  method ResolveVerdict(triggered: seq<RuleResult>) returns (best: Verdict)
    ensures Top(triggered, best)
    ensures Says(triggered, "block") ==> best == "block"
    ensures !Says(triggered, "block") && Says(triggered, "review") ==> best == "review"
    ensures triggered != [] ==> Says(triggered, best)
    ensures triggered == [] ==> best == "approve"
  {
    if |triggered| == 0 { return APPROVE; }
    best := triggered[0].verdict;
    var bestPriority := triggered[0].priority;
    ghost var k := 0;
    for i := 1 to |triggered|
      invariant 0 <= k < i && triggered[k].verdict == best && triggered[k].priority == bestPriority
      invariant forall j | 0 <= j < i :: AtMost(triggered[j], triggered[k])
    {
      var rr := triggered[i];
      if rr.priority > bestPriority
         || (rr.priority == bestPriority && VerdictWeight(rr.verdict) > VerdictWeight(best)) {
        best, bestPriority, k := rr.verdict, rr.priority, i;
      }
    }
    assert triggered[k] in triggered;
    TopSays(triggered, best);
  }

  /** The verdict depends only on which results there are, not on their order: ties cannot be told apart. */
  lemma TopIsUnique(a: seq<RuleResult>, b: seq<RuleResult>, v: Verdict, w: Verdict)
    requires Top(a, v) && Top(b, w)
    requires forall t :: t in a <==> t in b
    requires forall t | t in a :: Known(t.verdict)
    ensures v == w
  {
    if b != [] {
      assert b[0] in a;
    }
  }

  /** An unknown verdict would break this: it weighs less than every known one, but two of them tie. */
  lemma UnknownVerdictsTie()
    ensures var p, q := RuleResult("p", 1, "x"), RuleResult("q", 1, "y");
            Top([p, q], "x") && Top([p, q], "y")
  {
    var p, q := RuleResult("p", 1, "x"), RuleResult("q", 1, "y");
    assert p in [p, q] && q in [p, q];
  }
}
