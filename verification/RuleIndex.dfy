/**
 The per-event-type rule index, against the linear filter it replaces, and what the
 index means for the verdict of an event.
 */
module RuleIndex {
  import opened Occurrences
  import opened Options
  import opened Verdicts

  const ANY := "*"

  datatype Rule = Rule(ruleId: string, eventType: string, priority: int)

  predicate Descending(rs: seq<Rule>) {
    forall i, j | 0 <= i < j < |rs| :: rs[i].priority >= rs[j].priority
  }

  /** The linear filter: rules of this type and wildcard rules. */
  function Matching(rules: seq<Rule>, eventType: string): seq<Rule> {
    if rules == [] then []
    else
      var r := rules[|rules| - 1];
      Matching(rules[..|rules| - 1], eventType) + if r.eventType == ANY || r.eventType == eventType then [r] else []
  }

  function OfType(rules: seq<Rule>, eventType: string): seq<Rule> {
    if rules == [] then []
    else
      var r := rules[|rules| - 1];
      OfType(rules[..|rules| - 1], eventType) + if r.eventType == eventType then [r] else []
  }

  // ---- permutations ----

  /** The same rules, each the same number of times. */
  ghost predicate Permuted(a: seq<Rule>, b: seq<Rule>) {
    forall r :: Occ(a, r) == Occ(b, r)
  }

  /** What the filter keeps, counted. */
  lemma {:induction false} MatchingCount(rules: seq<Rule>, eventType: string, r: Rule)
    ensures Occ(Matching(rules, eventType), r) ==
            if r.eventType == ANY || r.eventType == eventType then Occ(rules, r) else 0
  {
    if rules != [] {
      var init, last := rules[..|rules| - 1], rules[|rules| - 1];
      MatchingCount(init, eventType, r);
      if last.eventType == ANY || last.eventType == eventType {
        OccSnoc(Matching(init, eventType), last, r);
      } else {
        assert Matching(rules, eventType) == Matching(init, eventType);
      }
    }
  }

  /** The filter keeps exactly the rules written for the event type or for "*". */
  lemma MatchingIs(rules: seq<Rule>, eventType: string, r: Rule)
    ensures r in Matching(rules, eventType) <==> r in rules && (r.eventType == "*" || r.eventType == eventType)
  {
    MatchingCount(rules, eventType, r);
    OccPositive(rules, r);
    OccPositive(Matching(rules, eventType), r);
  }

  lemma {:induction false} OfTypeCount(rules: seq<Rule>, eventType: string, r: Rule)
    ensures Occ(OfType(rules, eventType), r) == if r.eventType == eventType then Occ(rules, r) else 0
  {
    if rules != [] {
      var init, last := rules[..|rules| - 1], rules[|rules| - 1];
      OfTypeCount(init, eventType, r);
      if last.eventType == eventType {
        OccSnoc(OfType(init, eventType), last, r);
      } else {
        assert OfType(rules, eventType) == OfType(init, eventType);
      }
    }
  }

  lemma {:induction false} OnlyWildcards(rules: seq<Rule>, eventType: string)
    requires OfType(rules, eventType) == [] || eventType == ANY
    ensures Matching(rules, eventType) == OfType(rules, ANY)
  {
    if rules != [] { OnlyWildcards(rules[..|rules| - 1], eventType); }
  }

  lemma DescendingSnoc(rs: seq<Rule>, r: Rule)
    requires Descending(rs) && forall x | x in rs :: x.priority >= r.priority
    ensures Descending(rs + [r])
  {
    assert forall i | 0 <= i < |rs| :: rs[i] in rs;
  }

  lemma {:induction false} OfTypeMembers(rules: seq<Rule>, eventType: string)
    ensures forall r | r in OfType(rules, eventType) :: r in rules && r.eventType == eventType
  {
    if rules != [] { OfTypeMembers(rules[..|rules| - 1], eventType); }
  }

  lemma {:induction false} OfTypeDescending(rules: seq<Rule>, eventType: string)
    requires Descending(rules)
    ensures Descending(OfType(rules, eventType))
  {
    if rules != [] {
      var n := |rules| - 1;
      OfTypeDescending(rules[..n], eventType);
      if rules[n].eventType == eventType {
        OfTypeMembers(rules[..n], eventType);
        DescendingSnoc(OfType(rules[..n], eventType), rules[n]);
      }
    }
  }

  lemma OfTypeSnoc(rules: seq<Rule>, r: Rule, eventType: string)
    ensures OfType(rules + [r], eventType) == OfType(rules, eventType) + if r.eventType == eventType then [r] else []
  {
    assert (rules + [r])[..|rules|] == rules;
  }

  /** Two descending lists as one; on a tie the first list goes first. */
  function Merged(a: seq<Rule>, b: seq<Rule>): seq<Rule>
    decreases |a| + |b|
  {
    if a == [] then b
    else if b == [] then a
    else if a[0].priority >= b[0].priority then [a[0]] + Merged(a[1..], b)
    else [b[0]] + Merged(a, b[1..])
  }

  lemma {:induction false} MergedCount(a: seq<Rule>, b: seq<Rule>, r: Rule)
    ensures Occ(Merged(a, b), r) == Occ(a, r) + Occ(b, r)
    decreases |a| + |b|
  {
    if a != [] && b != [] {
      if a[0].priority >= b[0].priority {
        MergedCount(a[1..], b, r);
        OccConcat([a[0]], Merged(a[1..], b), r);
        OccConcat([a[0]], a[1..], r);
        assert a == [a[0]] + a[1..];
      } else {
        MergedCount(a, b[1..], r);
        OccConcat([b[0]], Merged(a, b[1..]), r);
        OccConcat([b[0]], b[1..], r);
        assert b == [b[0]] + b[1..];
      }
    }
  }

  lemma {:induction false} MergedDescending(a: seq<Rule>, b: seq<Rule>)
    requires Descending(a) && Descending(b)
    ensures Descending(Merged(a, b))
    ensures forall x | x in Merged(a, b) ::
        (a != [] && x.priority <= a[0].priority) || (b != [] && x.priority <= b[0].priority)
    decreases |a| + |b|
  {
    if a != [] && b != [] {
      if a[0].priority >= b[0].priority {
        MergedDescending(a[1..], b);
        var rest := Merged(a[1..], b);
        assert forall i | 0 <= i < |rest| :: rest[i] in rest;
      } else {
        MergedDescending(a, b[1..]);
        var rest := Merged(a, b[1..]);
        assert forall i | 0 <= i < |rest| :: rest[i] in rest;
      }
    }
  }

  lemma MergedWithNothing(a: seq<Rule>, b: seq<Rule>)
    requires a == [] || b == []
    ensures Merged(a, b) == a + b
  {
  }

  /** Taking the next rule from the list whose head goes first. */
  lemma MergedNext(a: seq<Rule>, b: seq<Rule>, i: nat, j: nat)
    requires i < |a| && j < |b|
    ensures a[i].priority >= b[j].priority ==> Merged(a[i..], b[j..]) == [a[i]] + Merged(a[i + 1..], b[j..])
    ensures a[i].priority < b[j].priority ==> Merged(a[i..], b[j..]) == [b[j]] + Merged(a[i..], b[j + 1..])
  {
    assert a[i..][1..] == a[i + 1..] && b[j..][1..] == b[j + 1..];
  }

  lemma Shift(out: seq<Rule>, r: Rule, rest: seq<Rule>)
    ensures out + ([r] + rest) == out + [r] + rest
  {
  }

  /** The two-index loop. */
  method MergeByPriority(a: seq<Rule>, b: seq<Rule>) returns (out: seq<Rule>)
    ensures out == Merged(a, b)
  {
    out := [];
    var i, j := 0, 0;
    while i < |a| && j < |b|
      invariant 0 <= i <= |a| && 0 <= j <= |b|
      invariant out + Merged(a[i..], b[j..]) == Merged(a, b)
      decreases |a| - i + |b| - j
    {
      MergedNext(a, b, i, j);
      if a[i].priority >= b[j].priority {
        Shift(out, a[i], Merged(a[i + 1..], b[j..]));
        out := out + [a[i]];
        i := i + 1;
      } else {
        Shift(out, b[j], Merged(a[i..], b[j + 1..]));
        out := out + [b[j]];
        j := j + 1;
      }
    }
    MergedWithNothing(a[i..], b[j..]);
    out := out + a[i..] + b[j..];
  }

  /** A type's own rules merged with the wildcard rules are what the filter finds, in priority order. */
  lemma MergedIsMatching(rules: seq<Rule>, eventType: string)
    requires Descending(rules) && eventType != ANY
    ensures Descending(Merged(OfType(rules, eventType), OfType(rules, ANY)))
    ensures Permuted(Merged(OfType(rules, eventType), OfType(rules, ANY)), Matching(rules, eventType))
  {
    var own, wild := OfType(rules, eventType), OfType(rules, ANY);
    OfTypeDescending(rules, eventType);
    OfTypeDescending(rules, ANY);
    MergedDescending(own, wild);
    forall r ensures Occ(Merged(own, wild), r) == Occ(Matching(rules, eventType), r) {
      MergedCount(own, wild, r);
      OfTypeCount(rules, eventType, r);
      OfTypeCount(rules, ANY, r);
      MatchingCount(rules, eventType, r);
    }
  }

  /** An immutable collection of rules with its index. */
  class Snapshot {
    const rules: seq<Rule>
    var indexed: bool
    var byType: map<string, seq<Rule>>
    var wildcard: seq<Rule>

    /** Rules already sorted by priority; `index` off leaves the linear fallback. */
    constructor (rules: seq<Rule>, index: bool)
      requires Descending(rules)
      ensures Valid() && this.rules == rules && indexed == index
    {
      this.rules := rules;
      indexed, byType, wildcard := false, map[], [];
      new;
      if index { BuildIndex(); }
    }

    ghost predicate Valid()
      reads this
    {
      && Descending(rules)
      && (indexed ==>
            && wildcard == OfType(rules, ANY)
            && ANY !in byType && (forall t | t in byType :: byType[t] == Merged(OfType(rules, t), wildcard))
            && (forall t | t !in byType :: OfType(rules, t) == [] || t == ANY))
    }

    /** The first `n` rules are filed under their types. */
    ghost predicate Filed(n: nat)
      requires n <= |rules|
      reads this
    {
      && wildcard == OfType(rules[..n], ANY) && ANY !in byType
      && (forall t | t in byType :: byType[t] == OfType(rules[..n], t))
      && (forall t | t !in byType :: OfType(rules[..n], t) == [] || t == ANY)
    }

    method FileRule(i: nat)
      requires i < |rules| && Filed(i)
      modifies `byType, `wildcard
      ensures Filed(i + 1)
    {
      var r := rules[i];
      assert rules[..i + 1] == rules[..i] + [r];
      forall t ensures OfType(rules[..i + 1], t) == OfType(rules[..i], t) + if r.eventType == t then [r] else [] {
        OfTypeSnoc(rules[..i], r, t);
      }
      if r.eventType == ANY {
        wildcard := wildcard + [r];
      } else {
        var list := if r.eventType in byType then byType[r.eventType] else [];
        byType := byType[r.eventType := list + [r]];
      }
    }

    /** One pass that sorts rules into types, then one merge per type. */
    method BuildIndex()
      requires Descending(rules)
      modifies this
      ensures Valid() && indexed
    {
      byType, wildcard := map[], [];
      for i := 0 to |rules|
        invariant Filed(i)
      {
        FileRule(i);
      }
      assert rules[..|rules|] == rules;
      MergeAll();
      indexed := true;
    }

    method MergeAll()
      requires ANY !in byType && forall t | t in byType :: byType[t] == OfType(rules, t)
      modifies `byType
      ensures byType.Keys == old(byType.Keys)
      ensures forall t | t in byType :: byType[t] == Merged(OfType(rules, t), wildcard)
    {
      if |wildcard| == 0 { return; }
      var todo := byType.Keys;
      while todo != {}
        invariant todo <= byType.Keys == old(byType.Keys)
        invariant forall t | t in todo :: byType[t] == OfType(rules, t)
        invariant forall t | t in byType && t !in todo :: byType[t] == Merged(OfType(rules, t), wildcard)
        decreases todo
      {
        var t :| t in todo;
        var merged := MergeByPriority(byType[t], wildcard);
        byType := byType[t := merged];
        todo := todo - {t};
      }
    }

    /** The indexed answer is a priority-descending permutation of the linear filter, for every event type. */
    method RulesForEvent(eventType: string) returns (matched: seq<Rule>)
      requires Valid()
      ensures Permuted(matched, Matching(rules, eventType)) && Descending(matched)
    {
      if indexed {
        if eventType in byType {
          MergedIsMatching(rules, eventType);
          return byType[eventType];
        }
        OnlyWildcards(rules, eventType);
        OfTypeDescending(rules, ANY);
        return wildcard;
      }
      matched := [];
      for i := 0 to |rules|
        invariant matched == Matching(rules[..i], eventType)
        invariant Descending(matched)
        invariant forall r | r in matched :: r in rules[..i]
      {
        assert rules[..i + 1][..i] == rules[..i];
        var r := rules[i];
        if r.eventType == ANY || r.eventType == eventType {
          assert forall k | 0 <= k < |matched| :: matched[k] in rules[..i];
          matched := matched + [r];
        }
      }
      assert rules[..|rules|] == rules;
    }
  }

  // ---- evaluating an event ----

  /** What a rule does to one event: the prefilter rejects it, evaluation fails, or it returns a value. */
  datatype Effect = Prefiltered | Raised | Gave(value: Returned)

  predicate Triggers(e: Effect) { e.Gave? && InterpretVerdict(e.value).Verdict? }

  function VerdictOf(e: Effect): (v: Verdict)
    ensures Triggers(e) ==> Known(v)
  {
    if Triggers(e) then InterpretVerdict(e.value).verdict else ""
  }

  function ResultOf(r: Rule, effect: Rule -> Effect): RuleResult {
    RuleResult(r.ruleId, r.priority, VerdictOf(effect(r)))
  }

  /** The results that count, when evaluation never runs out of time. */
  function TriggeredOf(matched: seq<Rule>, effect: Rule -> Effect): seq<RuleResult> {
    if matched == [] then []
    else
      var r := matched[|matched| - 1];
      TriggeredOf(matched[..|matched| - 1], effect) + if Triggers(effect(r)) then [ResultOf(r, effect)] else []
  }

  lemma {:induction false} TriggeredMembers(matched: seq<Rule>, effect: Rule -> Effect, t: RuleResult)
    ensures t in TriggeredOf(matched, effect) <==>
            exists r | r in matched :: Triggers(effect(r)) && t == ResultOf(r, effect)
  {
    if matched != [] {
      var n := |matched| - 1;
      TriggeredMembers(matched[..n], effect, t);
      var init, last := matched[..n], matched[n];
      assert matched == init + [last];
      assert t in TriggeredOf(matched, effect) <==>
             t in TriggeredOf(init, effect) || (Triggers(effect(last)) && t == ResultOf(last, effect));
    }
  }

  datatype Fate = Skipped | Triggered | Failed

  /** What became of the rules: `fates` has one entry for each, and the lists hold the rules of each fate. */
  function WithFate(matched: seq<Rule>, fates: seq<Fate>, f: Fate): seq<Rule>
    requires |fates| == |matched|
  {
    if matched == [] then []
    else
      var n := |matched| - 1;
      WithFate(matched[..n], fates[..n], f) + if fates[n] == f then [matched[n]] else []
  }

  lemma FateSnoc(matched: seq<Rule>, fates: seq<Fate>, x: Rule, g: Fate, f: Fate)
    requires |fates| == |matched|
    ensures WithFate(matched + [x], fates + [g], f) == WithFate(matched, fates, f) + if g == f then [x] else []
  {
    assert (matched + [x])[..|matched|] == matched && (fates + [g])[..|matched|] == fates;
  }

  lemma FateCount(matched: seq<Rule>, fates: seq<Fate>, x: Rule, g: Fate, f: Fate, r: Rule)
    requires |fates| == |matched|
    ensures Occ(WithFate(matched + [x], fates + [g], f), r) ==
            Occ(WithFate(matched, fates, f), r) + if g == f && x == r then 1 else 0
  {
    FateSnoc(matched, fates, x, g, f);
    if g == f {
      OccSnoc(WithFate(matched, fates, f), x, r);
    } else {
      assert WithFate(matched, fates, f) + [] == WithFate(matched, fates, f);
    }
  }

  /** Whatever the fates are, the three lists together hold each rule as often as it was matched. */
  lemma {:induction false} FatesPartition(matched: seq<Rule>, fates: seq<Fate>, r: Rule)
    requires |fates| == |matched|
    ensures Occ(WithFate(matched, fates, Skipped), r) + Occ(WithFate(matched, fates, Triggered), r)
            + Occ(WithFate(matched, fates, Failed), r) == Occ(matched, r)
  {
    if matched != [] {
      var n := |matched| - 1;
      var init, fs, x, g := matched[..n], fates[..n], matched[n], fates[n];
      assert matched == init + [x] && fates == fs + [g];
      FatesPartition(init, fs, r);
      FateCount(init, fs, x, g, Skipped, r);
      FateCount(init, fs, x, g, Triggered, r);
      FateCount(init, fs, x, g, Failed, r);
      OccSnoc(init, x, r);
    }
  }

  /** The results of the triggered rules, in order. */
  function Results(matched: seq<Rule>, fates: seq<Fate>, effect: Rule -> Effect): seq<RuleResult>
    requires |fates| == |matched|
  {
    if matched == [] then []
    else
      var n := |matched| - 1;
      Results(matched[..n], fates[..n], effect) + if fates[n] == Triggered then [ResultOf(matched[n], effect)] else []
  }

  lemma ResultsSnoc(matched: seq<Rule>, fates: seq<Fate>, x: Rule, g: Fate, effect: Rule -> Effect)
    requires |fates| == |matched|
    ensures Results(matched + [x], fates + [g], effect) ==
            Results(matched, fates, effect) + if g == Triggered then [ResultOf(x, effect)] else []
  {
    assert (matched + [x])[..|matched|] == matched && (fates + [g])[..|matched|] == fates;
  }

  /** A rule's fate: the prefilter, then the deadline, then its outcome decide. */
  function FateOf(r: Rule, effect: Rule -> Effect, alive: bool): Fate {
    if effect(r).Prefiltered? then Skipped
    else if alive && Triggers(effect(r)) then Triggered
    else Failed
  }

  /** The lists of a loop that has been through `done`. */
  ghost predicate Booked(done: seq<Rule>, effect: Rule -> Effect, fates: seq<Fate>,
                         triggered: seq<RuleResult>, failed: seq<Rule>, prefiltered: nat) {
    && |fates| == |done| && triggered == Results(done, fates, effect)
    && failed == WithFate(done, fates, Failed) && prefiltered == |WithFate(done, fates, Skipped)|
  }

  lemma BookNext(done: seq<Rule>, effect: Rule -> Effect, fates: seq<Fate>,
                 triggered: seq<RuleResult>, failed: seq<Rule>, prefiltered: nat, r: Rule)
    requires Booked(done, effect, fates, triggered, failed, prefiltered)
    ensures Booked(done + [r], effect, fates + [Skipped], triggered, failed, prefiltered + 1)
    ensures Booked(done + [r], effect, fates + [Failed], triggered, failed + [r], prefiltered)
    ensures Booked(done + [r], effect, fates + [Triggered], triggered + [ResultOf(r, effect)], failed, prefiltered)
  {
    forall f: Fate, g: Fate ensures
      WithFate(done + [r], fates + [f], g) == WithFate(done, fates, g) + (if f == g then [r] else [])
      && Results(done + [r], fates + [f], effect) == triggered + if f == Triggered then [ResultOf(r, effect)] else []
    {
      FateSnoc(done, fates, r, f, g);
      ResultsSnoc(done, fates, r, f, effect);
    }
  }

  /** Every rule has its fate; `alive` is the event's deadline, checked before each evaluation. */
  ghost predicate Fated(matched: seq<Rule>, effect: Rule -> Effect, alive: nat -> bool, fates: seq<Fate>) {
    |fates| == |matched| && forall i | 0 <= i < |matched| :: fates[i] == FateOf(matched[i], effect, alive(i))
  }

  lemma FatedNext(matched: seq<Rule>, effect: Rule -> Effect, alive: nat -> bool, fates: seq<Fate>, r: Rule)
    requires Fated(matched, effect, alive, fates)
    ensures Fated(matched + [r], effect, alive, fates + [FateOf(r, effect, alive(|matched|))])
  {
  }

  /** Run the rule and read what it returns; None is a failure. */
  method EvalRule(rule: Rule, e: Effect) returns (rr: Option<RuleResult>)
    requires !e.Prefiltered?
    ensures rr == if Triggers(e) then Some(RuleResult(rule.ruleId, rule.priority, VerdictOf(e))) else None
  {
    if e.Raised? { return None; }
    var outcome := InterpretVerdict(e.value);
    if outcome.Error? { return None; }
    return Some(RuleResult(rule.ruleId, rule.priority, outcome.verdict));
  }

  /** Every matched rule ends in exactly one of prefiltered, triggered or failed. */
  method ProcessEvent(matched: seq<Rule>, effect: Rule -> Effect, alive: nat -> bool)
      returns (verdict: Verdict, triggered: seq<RuleResult>, failed: seq<Rule>, prefiltered: nat,
               ghost fates: seq<Fate>)
    ensures Fated(matched, effect, alive, fates)
    ensures triggered == Results(matched, fates, effect) && Top(triggered, verdict)
    ensures failed == WithFate(matched, fates, Failed) && prefiltered == |WithFate(matched, fates, Skipped)|
  {
    triggered, failed, prefiltered, fates := [], [], 0, [];
    for i := 0 to |matched|
      invariant Booked(matched[..i], effect, fates, triggered, failed, prefiltered)
      invariant |fates| == i && Fated(matched[..i], effect, alive, fates)
    {
      var rule := matched[i];
      BookNext(matched[..i], effect, fates, triggered, failed, prefiltered, rule);
      assert matched[..i + 1] == matched[..i] + [rule];
      FatedNext(matched[..i], effect, alive, fates, rule);
      fates := fates + [FateOf(rule, effect, alive(i))];
      if effect(rule).Prefiltered? {
        prefiltered := prefiltered + 1;
      } else if !alive(i) {
        failed := failed + [rule];
      } else {
        var rr := EvalRule(rule, effect(rule));
        if rr.None? { failed := failed + [rule]; } else { triggered := triggered + [rr.value]; }
      }
    }
    assert matched[..|matched|] == matched;
    verdict := ResolveVerdict(triggered);
  }

  lemma {:induction false} FateListed(matched: seq<Rule>, fates: seq<Fate>, effect: Rule -> Effect, i: nat)
    requires |fates| == |matched| && i < |matched|
    ensures matched[i] in WithFate(matched, fates, fates[i])
    ensures fates[i] == Triggered ==> ResultOf(matched[i], effect) in Results(matched, fates, effect)
  {
    var n := |matched| - 1;
    if i < n { FateListed(matched[..n], fates[..n], effect, i); }
  }

  /** What becomes of one matched rule: past the deadline it fails without running, whatever it would have
      returned; within it, it counts exactly if what it returns is a verdict. */
  lemma OneRulesFate(matched: seq<Rule>, effect: Rule -> Effect, alive: nat -> bool, fates: seq<Fate>, i: nat)
    requires Fated(matched, effect, alive, fates) && i < |matched| && !effect(matched[i]).Prefiltered?
    ensures !alive(i) ==> matched[i] in WithFate(matched, fates, Failed)
    ensures effect(matched[i]).Raised? ==> matched[i] in WithFate(matched, fates, Failed)
    ensures forall v, reason | alive(i) && (v == "approve" || v == "block" || v == "review")
                               && effect(matched[i]) == Gave(Struct(Some(Str(v)), Some(Str(reason)))) ::
              RuleResult(matched[i].ruleId, matched[i].priority, v) in Results(matched, fates, effect)
  {
    FateListed(matched, fates, effect, i);
    assert fates[i] == FateOf(matched[i], effect, alive(i));
  }

  /** While the deadline holds, the results are exactly those of the rules that return a verdict. */
  lemma {:induction false} AliveResults(matched: seq<Rule>, fates: seq<Fate>, effect: Rule -> Effect)
    requires Fated(matched, effect, _ => true, fates)
    ensures Results(matched, fates, effect) == TriggeredOf(matched, effect)
  {
    if matched != [] {
      var n := |matched| - 1;
      assert fates[n] == FateOf(matched[n], effect, true);
      AliveResults(matched[..n], fates[..n], effect);
    }
  }

  lemma {:induction false} TriggeredKnown(matched: seq<Rule>, effect: Rule -> Effect)
    ensures forall t | t in TriggeredOf(matched, effect) :: Known(t.verdict)
  {
    forall t | t in TriggeredOf(matched, effect) ensures Known(t.verdict) { TriggeredMembers(matched, effect, t); }
  }

  /** With pure rule outcomes the final verdict is the same through the index and through the linear filter,
      and for every order in which an unstable sort may leave rules of equal priority. */
  lemma IndexDoesNotChangeVerdict(a: seq<Rule>, b: seq<Rule>, effect: Rule -> Effect, v: Verdict, w: Verdict)
    requires Permuted(a, b)
    requires Top(TriggeredOf(a, effect), v) && Top(TriggeredOf(b, effect), w)
    ensures v == w
  {
    forall r ensures r in a <==> r in b {
      OccPositive(a, r);
      OccPositive(b, r);
    }
    forall t ensures t in TriggeredOf(a, effect) <==> t in TriggeredOf(b, effect) {
      TriggeredMembers(a, effect, t);
      TriggeredMembers(b, effect, t);
    }
    TriggeredKnown(a, effect);
    TopIsUnique(TriggeredOf(a, effect), TriggeredOf(b, effect), v, w);
  }

  /** Two snapshots of the same rules, sorted by any unstable sort, list the same rules for every event type. */
  lemma ResortedFilter(p: seq<Rule>, q: seq<Rule>, eventType: string)
    requires Permuted(p, q)
    ensures Permuted(Matching(p, eventType), Matching(q, eventType))
  {
    forall r ensures Occ(Matching(p, eventType), r) == Occ(Matching(q, eventType), r) {
      MatchingCount(p, eventType, r);
      MatchingCount(q, eventType, r);
    }
  }
}
