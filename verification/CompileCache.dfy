/**
 Compiling a directory through the content-keyed cache, against compiling it from
 scratch.
 */
module CompileCache {
  import opened Options
  import opened Texts
  import opened RuleIndex

  datatype Built = Rules(rules: seq<Rule>) | Failure

  /** What compiling the sources from scratch gives: all or nothing, and no rule id twice. */
  ghost predicate FromScratch(compile: Text -> Option<Rule>, sources: seq<Text>, b: Built) {
    match b
    case Rules(rules) =>
      && |rules| == |sources|
      && (forall i | 0 <= i < |sources| :: compile(sources[i]) == Some(rules[i]))
      && (forall i, j | 0 <= i < j < |rules| :: rules[i].ruleId != rules[j].ruleId)
    case Failure =>
      || (exists i :: 0 <= i < |sources| && compile(sources[i]).None?)
      || (exists i, j :: && 0 <= i < j < |sources| && compile(sources[i]).Some? && compile(sources[j]).Some?
                         && compile(sources[i]).value.ruleId == compile(sources[j]).value.ruleId)
  }

  /** Compiling from scratch has one result. */
  lemma FromScratchUnique(compile: Text -> Option<Rule>, sources: seq<Text>, a: Built, b: Built)
    requires FromScratch(compile, sources, a) && FromScratch(compile, sources, b)
    ensures a == b
  {
    if a.Rules? && b.Rules? {
      assert forall i | 0 <= i < |sources| :: a.rules[i] == b.rules[i];
      assert a.rules == b.rules;
    }
  }

  function Indices(n: nat): (r: set<nat>)
    ensures forall i: nat :: i in r <==> i < n
  {
    if n == 0 then {} else Indices(n - 1) + {n - 1}
  }

  class Compiler {
    const compile: Text -> Option<Rule>   // pure: module scope runs frozen and step-bounded
    const digest: Text -> nat             // SHA-256, without collisions
    var cache: map<nat, Rule>

    constructor (compile: Text -> Option<Rule>, digest: Text -> nat)
      requires forall x, y | digest(x) == digest(y) :: x == y
      ensures Valid() && cache == map[] && this.compile == compile && this.digest == digest
    {
      this.compile, this.digest, cache := compile, digest, map[];
    }

    /** A cached rule is the compilation of every source with its key. */
    ghost predicate Valid()
      reads this
    {
      && (forall x, y | digest(x) == digest(y) :: x == y)
      && (forall src | digest(src) in cache :: compile(src) == Some(cache[digest(src)]))
    }

    /** The first half of a compile: look the source up. */
    method Lookup(src: Text) returns (rule: Option<Rule>)
      requires Valid()
      ensures rule == if digest(src) in cache then compile(src) else None
    {
      if digest(src) in cache { return Some(cache[digest(src)]); }
      return None;
    }

    /** The other half, which others may interleave with: compile it and store it. */
    method CompileAndStore(src: Text) returns (rule: Option<Rule>)
      requires Valid()
      modifies this
      ensures Valid() && rule == compile(src)
      ensures cache == if rule.Some? then old(cache)[digest(src) := rule.value] else old(cache)
    {
      rule := compile(src);
      if rule.Some? { cache := cache[digest(src) := rule.value]; }
    }

    method CachedCompile(src: Text) returns (rule: Option<Rule>, key: nat)
      requires Valid()
      modifies this
      ensures Valid() && rule == compile(src) && key == digest(src)
      ensures rule.Some? ==> cache == old(cache)[key := rule.value]
      ensures rule.None? ==> cache == old(cache)
    {
      key := digest(src);
      rule := Lookup(src);
      if rule.None? { rule := CompileAndStore(src); }
    }

    /** Drop the entries that the latest build did not use. */
    method Prune(used: set<nat>)
      requires Valid()
      modifies this
      ensures Valid() && cache.Keys == old(cache).Keys * used
      ensures forall k | k in cache :: cache[k] == old(cache)[k]
    {
      cache := map k | k in cache && k in used :: cache[k];
    }

    /** Compile every file, the goroutines' lookups and stores interleaved in whatever order; `missed` are the files
        that were looked up in vain and are still being compiled. */
    method CompileAll(sources: seq<Text>) returns (compiled: map<nat, Option<Rule>>)
      requires Valid()
      modifies this
      ensures Valid() && compiled.Keys == Indices(|sources|)
      ensures forall i | 0 <= i < |sources| :: compiled[i] == compile(sources[i])
      ensures forall i | 0 <= i < |sources| && compile(sources[i]).Some? :: digest(sources[i]) in cache
    {
      compiled := map[];
      var todo, missed := Indices(|sources|), {};
      while todo != {} || missed != {}
        invariant Valid() && todo !! missed && todo + missed <= Indices(|sources|)
            && compiled.Keys == Indices(|sources|) - todo - missed
        invariant forall i | i in compiled :: compiled[i] == compile(sources[i])
        invariant forall i | i in compiled && compile(sources[i]).Some? :: digest(sources[i]) in cache
        decreases todo, missed
      {
        if
        case todo != {} =>
          var i :| i in todo;
          var hit := Lookup(sources[i]);
          todo := todo - {i};
          if hit.Some? { compiled := compiled[i := hit]; } else { missed := missed + {i}; }
        case missed != {} =>
          var i :| i in missed;
          var rule := CompileAndStore(sources[i]);
          missed := missed - {i};
          compiled := compiled[i := rule];
      }
    }

    /** Collect the compiled rules in file order, refusing a rule id that occurs twice. */
    method Assemble(sources: seq<Text>, compiled: seq<Rule>) returns (b: Built, used: set<nat>)
      requires |compiled| == |sources| && forall i | 0 <= i < |sources| :: compile(sources[i]) == Some(compiled[i])
      ensures FromScratch(compile, sources, b)
      ensures b.Rules? ==> used == set i | 0 <= i < |sources| :: digest(sources[i])
    {
      var seen: set<string> := {};
      used := {};
      for i := 0 to |sources|
        invariant seen == set k | 0 <= k < i :: compiled[k].ruleId
        invariant forall j, k | 0 <= j < k < i :: compiled[j].ruleId != compiled[k].ruleId
        invariant used == set k | 0 <= k < i :: digest(sources[k])
      {
        if compiled[i].ruleId in seen {
          var j :| 0 <= j < i && compiled[j].ruleId == compiled[i].ruleId;
          assert compile(sources[j]).value.ruleId == compile(sources[i]).value.ruleId;
          return Failure, used;
        }
        seen := seen + {compiled[i].ruleId};
        used := used + {digest(sources[i])};
      }
      return Rules(compiled), used;
    }

    /** The cache never changes what a build returns: whatever it holds, the result is the one from scratch,
        and after a successful build it holds exactly the sources of that build. */
    method CompileDir(sources: seq<Text>) returns (b: Built)
      requires Valid()
      modifies this
      ensures Valid() && FromScratch(compile, sources, b)
      ensures b.Rules? ==> cache.Keys == set i | 0 <= i < |sources| :: digest(sources[i])
    {
      var compiled := CompileAll(sources);
      var rules: seq<Rule> := [];
      for i := 0 to |sources|
        invariant |rules| == i && forall k | 0 <= k < i :: compile(sources[k]) == Some(rules[k])
      {
        if compiled[i].None? { return Failure; }
        rules := rules + [compiled[i].value];
      }
      var used: set<nat>;
      b, used := Assemble(sources, rules);
      if b.Rules? { Prune(used); }
    }
  }
}
