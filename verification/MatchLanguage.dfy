/**
 The `match` block of a rule: its meaning over the Starlark value as written, and the
 native predicates it is lowered to.
 */
module MatchLanguage {
  import opened Options

  // ---- numbers ----

  /** float64 as far as comparisons can tell; how an int64 rounds is a parameter of everything below. */
  datatype Float = NaN | NegInf | Finite(value: real) | PosInf

  predicate Lt(a: Float, b: Float) {
    match (a, b)
    case (NaN, _) => false
    case (_, NaN) => false
    case (Finite(x), Finite(y)) => x < y
    case _ => a != b && (a.NegInf? || b.PosInf?)
  }

  predicate Eq(a: Float, b: Float) { a == b && !a.NaN? }

  type Widening = int -> Float

  const INT64 := 0x8000_0000_0000_0000

  // ---- source ----

  datatype Star =
    | SStr(s: string) | SInt(i: int) | SFloat(f: Float) | SBool(b: bool)
    | SList(items: seq<Star>) | SDict(entries: seq<(Star, Star)>) | SOther

  // ---- events ----

  datatype Val = Str(s: string) | Num(f: Float) | Int(i: int) | Bool(b: bool) | Map(m: map<string, Val>) | Other

  datatype Event = Event(payload: map<string, Val>, eventType: string, eventId: string, entityId: string,
      timestamp: int)

  function Split(path: string): (segs: seq<string>)
    ensures segs != []
  {
    if path == "" then [""]
    else
      var segs, c := Split(path[..|path| - 1]), path[|path| - 1];
      if c == '.' then segs + [""] else segs[..|segs| - 1] + [segs[|segs| - 1] + [c]]
  }

  /** The envelope field a path starts from. */
  function Root(ev: Event, name: string, widen: Widening): Option<Val> {
    if name == "payload" then Some(Map(ev.payload))
    else if name == "event_type" then Some(Str(ev.eventType))
    else if name == "event_id" then Some(Str(ev.eventId))
    else if name == "entity_id" then Some(Str(ev.entityId))
    else if name == "timestamp" then Some(Num(widen(ev.timestamp)))
    else None
  }

  /** Value `v` is at the end of `segs`, walking down maps from `from`. */
  ghost predicate Leads(from: Val, segs: seq<string>, v: Val) {
    if segs == [] then v == from
    else from.Map? && segs[0] in from.m && Leads(from.m[segs[0]], segs[1..], v)
  }

  ghost predicate FieldIs(ev: Event, path: string, v: Val, widen: Widening) {
    var segs := Split(path);
    var root := Root(ev, segs[0], widen);
    root.Some? && Leads(root.value, segs[1..], v)
  }

  // ---- the meaning of a clause ----

  /** What a field or a constant stands for in a comparison. */
  datatype Meaning = Number(f: Float) | Text(s: string) | Truth(b: bool) | Nothing

  function FieldMeaning(v: Val, widen: Widening): Meaning {
    match v
    case Num(f) => Number(f)
    case Int(i) => Number(widen(i))
    case Str(s) => Text(s)
    case Bool(b) => Truth(b)
    case _ => Nothing
  }

  function ConstantMeaning(c: Star, widen: Widening): Meaning {
    match c
    case SFloat(f) => Number(f)
    case SInt(i) => Number(widen(i))
    case SStr(s) => Text(s)
    case SBool(b) => Truth(b)
    case _ => Nothing
  }

  predicate Comparable(a: Meaning, b: Meaning) {
    (a.Number? && b.Number?) || (a.Text? && b.Text?) || (a.Truth? && b.Truth?)
  }

  predicate Same(a: Meaning, b: Meaning) {
    Comparable(a, b) && if a.Number? then Eq(a.f, b.f) else a == b
  }

  ghost predicate OpHolds(op: string, field: Val, operand: Star, widen: Widening) {
    var a, b := FieldMeaning(field, widen), ConstantMeaning(operand, widen);
    if op == "==" then Same(a, b)
    else if op == "!=" then Comparable(a, b) && !Same(a, b)
    else if op == "<" then a.Number? && b.Number? && Lt(a.f, b.f)
    else if op == "<=" then a.Number? && b.Number? && (Lt(a.f, b.f) || Eq(a.f, b.f))
    else if op == ">" then a.Number? && b.Number? && Lt(b.f, a.f)
    else if op == ">=" then a.Number? && b.Number? && (Lt(b.f, a.f) || Eq(a.f, b.f))
    else if op == "prefix" then a.Text? && b.Text? && b.s <= a.s
    else if op == "in" then operand.SList? && exists c | c in operand.items :: Same(a, ConstantMeaning(c, widen))
    else false
  }

  /** A clause [path, op] or [path, op, value] holds of an event: a missing field makes it false. */
  ghost predicate ClauseHolds(c: Star, ev: Event, widen: Widening)
    requires IsClause(c)
  {
    var path, op := c.items[0].s, c.items[1].s;
    exists v :: FieldIs(ev, path, v, widen) && (op == "exists" || OpHolds(op, v, c.items[2], widen))
  }

  // ---- well-formed source ----

  predicate IsOrder(op: string) { op == "<" || op == "<=" || op == ">" || op == ">=" }

  predicate IsScalar(c: Star) {
    c.SStr? || c.SFloat? || c.SBool? || (c.SInt? && -INT64 <= c.i < INT64)
  }

  /** Constants of one kind. */
  predicate Alike(a: Star, b: Star) {
    (a.SStr? && b.SStr?) || (a.SBool? && b.SBool?) || ((a.SInt? || a.SFloat?) && (b.SInt? || b.SFloat?))
  }

  predicate IsOperand(op: string, c: Star) {
    if op == "in" then
      c.SList? && c.items != [] && forall i | 0 <= i < |c.items| ::
          IsScalar(c.items[i]) && Alike(c.items[0], c.items[i])
    else if op == "prefix" then c.SStr?
    else if IsOrder(op) then IsScalar(c) && (c.SInt? || c.SFloat?)
    else IsScalar(c)
  }

  predicate IsClause(c: Star) {
    && c.SList? && 2 <= |c.items| <= 3
    && c.items[0].SStr? && c.items[0].s != "" && c.items[1].SStr?
    && var op := c.items[1].s;
       if op == "exists" then |c.items| == 2
       else (op == "==" || op == "!=" || op == "in" || op == "prefix" || IsOrder(op))
            && |c.items| == 3 && IsOperand(op, c.items[2])
  }

  /** Exactly {"all": [clause, ...]}. */
  predicate IsMatch(v: Star) {
    && v.SDict? && |v.entries| == 1 && v.entries[0].0 == SStr("all") && v.entries[0].1.SList?
    && forall i | 0 <= i < |v.entries[0].1.items| :: IsClause(v.entries[0].1.items[i])
  }

  // ---- native predicates ----

  datatype Operand = NoValue | One(v: Val) | Many(vs: seq<Val>)

  datatype Predicate = Predicate(path: seq<string>, op: string, value: Operand)

  function ToFloat(v: Val, widen: Widening): Option<Float> {
    match v case Num(f) => Some(f) case Int(i) => Some(widen(i)) case _ => None
  }

  function ScalarEqual(field: Val, want: Val, widen: Widening): bool {
    var f, w := ToFloat(field, widen), ToFloat(want, widen);
    if f.Some? && w.Some? then Eq(f.value, w.value)
    else match field
         case Str(s) => want.Str? && want.s == s
         case Bool(b) => want.Bool? && want.b == b
         case _ => false
  }

  function ScalarComparable(field: Val, want: Val, widen: Widening): bool {
    (ToFloat(field, widen).Some? && ToFloat(want, widen).Some?)
    || match field case Str(_) => want.Str? case Bool(_) => want.Bool? case _ => false
  }

  /** What lowering promises about a predicate, so that evaluation never meets a shape it cannot handle. */
  predicate WellTyped(p: Predicate) {
    && p.path != []
    && match p.op
       case "exists" => p.value == NoValue
       case "in" => p.value.Many? && p.value.vs != []
       case "prefix" => p.value.One? && p.value.v.Str?
       case "==" => p.value.One?
       case "!=" => p.value.One?
       case _ => IsOrder(p.op) && p.value.One? && p.value.v.Num?
  }

  /** The walk down the payload, segment by segment. */
  method ResolvePath(ev: Event, path: seq<string>, widen: Widening) returns (field: Option<Val>)
    requires path != []
    ensures field == Resolved(ev, path, widen)
  {
    var cur := Root(ev, path[0], widen);
    if cur.None? { return None; }
    for i := 1 to |path|
      invariant cur.Some? && Resolved(ev, path, widen) == Walk(cur.value, path[i..])
    {
      assert path[i..][0] == path[i] && path[i..][1..] == path[i + 1..];
      if !cur.value.Map? || path[i] !in cur.value.m { return None; }
      cur := Some(cur.value.m[path[i]]);
    }
    return cur;
  }

  function Walk(from: Val, segs: seq<string>): Option<Val> {
    if segs == [] then Some(from)
    else if from.Map? && segs[0] in from.m then Walk(from.m[segs[0]], segs[1..])
    else None
  }

  function Resolved(ev: Event, path: seq<string>, widen: Widening): Option<Val>
    requires path != []
  {
    var root := Root(ev, path[0], widen);
    if root.None? then None else Walk(root.value, path[1..])
  }

  /** The operator switch of eval, for a field that is present. */
  predicate TestOp(op: string, field: Val, value: Operand, widen: Widening)
    requires op != "exists" && WellTyped(Predicate([""], op, value))
  {
    if op == "==" then ScalarEqual(field, value.v, widen)
    else if op == "!=" then ScalarComparable(field, value.v, widen) && !ScalarEqual(field, value.v, widen)
    else if op == "in" then exists i | 0 <= i < |value.vs| :: ScalarEqual(field, value.vs[i], widen)
    else if op == "prefix" then field.Str? && value.v.s <= field.s
    else
      var f, w := ToFloat(field, widen), ToFloat(value.v, widen);
      f.Some? && w.Some? &&
      if op == "<" then Lt(f.value, w.value)
      else if op == "<=" then Lt(f.value, w.value) || Eq(f.value, w.value)
      else if op == ">" then Lt(w.value, f.value)
      else Lt(w.value, f.value) || Eq(f.value, w.value)
  }

  predicate Passes(p: Predicate, ev: Event, widen: Widening)
    requires WellTyped(p)
  {
    var field := Resolved(ev, p.path, widen);
    field.Some? && (p.op == "exists" || TestOp(p.op, field.value, p.value, widen))
  }

  /** Evaluation of one predicate; the `in` list is scanned until a hit. */
  method Eval(p: Predicate, ev: Event, widen: Widening) returns (ok: bool)
    requires WellTyped(p)
    ensures ok == Passes(p, ev, widen)
  {
    var field := ResolvePath(ev, p.path, widen);
    if p.op == "exists" { return field.Some?; }
    if field.None? { return false; }
    if p.op == "in" {
      for i := 0 to |p.value.vs|
        invariant forall k | 0 <= k < i :: !ScalarEqual(field.value, p.value.vs[k], widen)
      {
        if ScalarEqual(field.value, p.value.vs[i], widen) { return true; }
      }
      return false;
    }
    return TestOp(p.op, field.value, p.value, widen);
  }

  /** Every clause must pass; a rule without a match block always does. */
  method PrefilterMatch(preds: seq<Predicate>, ev: Event, widen: Widening) returns (ok: bool)
    requires forall i | 0 <= i < |preds| :: WellTyped(preds[i])
    ensures ok <==> forall i | 0 <= i < |preds| :: Passes(preds[i], ev, widen)
  {
    for i := 0 to |preds|
      invariant forall k | 0 <= k < i :: Passes(preds[k], ev, widen)
    {
      var pass := Eval(preds[i], ev, widen);
      if !pass { return false; }
    }
    return true;
  }

  // ---- lowering ----

  function LowerScalar(c: Star, widen: Widening): Option<Val> {
    match c
    case SStr(s) => Some(Str(s))
    case SInt(i) => if -INT64 <= i < INT64 then Some(Num(widen(i))) else None
    case SFloat(f) => Some(Num(f))
    case SBool(b) => Some(Bool(b))
    case _ => None
  }

  predicate SameType(a: Val, b: Val) { (a.Str? && b.Str?) || (a.Num? && b.Num?) || (a.Bool? && b.Bool?) }

  /** The operand of `in`: a non-empty list of constants of one type. */
  method LowerList(items: seq<Star>, widen: Widening) returns (vs: Option<seq<Val>>)
    ensures vs.Some? <==> items != [] && forall i | 0 <= i < |items| :: IsScalar(items[i]) && Alike(items[0], items[i])
    ensures vs.Some? ==> |vs.value| == |items| && forall i | 0 <= i < |items| ::
        LowerScalar(items[i], widen) == Some(vs.value[i])
  {
    if |items| == 0 { return None; }
    var out: seq<Val> := [];
    for j := 0 to |items|
      invariant |out| == j
      invariant forall i | 0 <= i < j ::
                  IsScalar(items[i]) && Alike(items[0], items[i]) && LowerScalar(items[i], widen) == Some(out[i])
    {
      var item := LowerScalar(items[j], widen);
      if item.None? || (j > 0 && !SameType(out[0], item.value)) {
        assert !IsScalar(items[j]) || !Alike(items[0], items[j]);
        return None;
      }
      out := out + [item.value];
    }
    return Some(out);
  }

  method LowerClause(c: Star, widen: Widening) returns (p: Option<Predicate>)
    ensures p.Some? <==> IsClause(c)
    ensures p.Some? ==> Lowers(c, p.value, widen)
  {
    if !c.SList? { return None; }
    var n := |c.items|;
    if n < 2 || n > 3 { return None; }
    if !c.items[0].SStr? || c.items[0].s == "" || !c.items[1].SStr? { return None; }
    var path, op := Split(c.items[0].s), c.items[1].s;
    if op == "exists" {
      if n != 2 { return None; }
      return Some(Predicate(path, op, NoValue));
    }
    if !(op == "==" || op == "!=" || op == "in" || op == "prefix" || IsOrder(op)) || n != 3 { return None; }
    if op == "in" {
      if !c.items[2].SList? { return None; }
      var vs := LowerList(c.items[2].items, widen);
      if vs.None? { return None; }
      return Some(Predicate(path, op, Many(vs.value)));
    }
    var val := LowerScalar(c.items[2], widen);
    if val.None? || (op == "prefix" && !val.value.Str?) || (IsOrder(op) && !val.value.Num?) { return None; }
    return Some(Predicate(path, op, One(val.value)));
  }

  /** Predicate `p` carries the clause's path, operator and constants. */
  ghost predicate Lowers(c: Star, p: Predicate, widen: Widening)
    requires IsClause(c)
  {
    && p.path == Split(c.items[0].s) && p.op == c.items[1].s
    && if p.op == "exists" then p.value == NoValue
       else if p.op == "in" then
         && p.value.Many? && |p.value.vs| == |c.items[2].items|
         && forall i | 0 <= i < |p.value.vs| :: LowerScalar(c.items[2].items[i], widen) == Some(p.value.vs[i])
       else p.value.One? && LowerScalar(c.items[2], widen) == Some(p.value.v)
  }

  /** Accepts exactly the well-formed match values, and lowers every clause. */
  method LowerMatch(v: Star, widen: Widening) returns (preds: Option<seq<Predicate>>)
    ensures preds.Some? <==> IsMatch(v)
    ensures preds.Some? ==>
              && |preds.value| == |v.entries[0].1.items|
              && forall i | 0 <= i < |preds.value| ::
                   Lowers(v.entries[0].1.items[i], preds.value[i], widen) && WellTyped(preds.value[i])
  {
    if !v.SDict? || |v.entries| != 1 || v.entries[0].0 != SStr("all") || !v.entries[0].1.SList? { return None; }
    var clauses := v.entries[0].1.items;
    var out: seq<Predicate> := [];
    for i := 0 to |clauses|
      invariant |out| == i
      invariant forall k | 0 <= k < i :: IsClause(clauses[k]) && Lowers(clauses[k], out[k], widen) && WellTyped(out[k])
    {
      var p := LowerClause(clauses[i], widen);
      if p.None? { return None; }
      LoweredIsWellTyped(clauses[i], p.value, widen);
      out := out + [p.value];
    }
    return Some(out);
  }

  lemma LoweredIsWellTyped(c: Star, p: Predicate, widen: Widening)
    requires IsClause(c) && Lowers(c, p, widen)
    ensures WellTyped(p)
  {
  }

  // ---- lowering keeps the meaning ----

  lemma LoweredConstant(c: Star, v: Val, widen: Widening)
    requires LowerScalar(c, widen) == Some(v)
    ensures FieldMeaning(v, widen) == ConstantMeaning(c, widen)
  {
  }

  lemma EqualIsSame(field: Val, want: Val, widen: Widening)
    ensures ScalarEqual(field, want, widen) == Same(FieldMeaning(field, widen), FieldMeaning(want, widen))
    ensures ScalarComparable(field, want, widen) == Comparable(FieldMeaning(field, widen), FieldMeaning(want, widen))
  {
  }

  lemma {:induction false} WalkLeads(from: Val, segs: seq<string>, v: Val)
    ensures Leads(from, segs, v) <==> Walk(from, segs) == Some(v)
  {
    if segs != [] && from.Map? && segs[0] in from.m { WalkLeads(from.m[segs[0]], segs[1..], v); }
  }

  lemma InHolds(field: Val, operand: Star, vs: seq<Val>, widen: Widening)
    requires operand.SList? && |vs| == |operand.items|
    requires forall i | 0 <= i < |vs| :: LowerScalar(operand.items[i], widen) == Some(vs[i])
    ensures (exists i | 0 <= i < |vs| :: ScalarEqual(field, vs[i], widen)) <==> OpHolds("in", field, operand, widen)
  {
    forall i | 0 <= i < |vs|
      ensures ScalarEqual(field, vs[i], widen) ==
          Same(FieldMeaning(field, widen), ConstantMeaning(operand.items[i], widen))
    {
      LoweredConstant(operand.items[i], vs[i], widen);
      EqualIsSame(field, vs[i], widen);
    }
    if c :| c in operand.items && Same(FieldMeaning(field, widen), ConstantMeaning(c, widen)) {
      var i :| 0 <= i < |operand.items| && operand.items[i] == c;
      assert ScalarEqual(field, vs[i], widen);
    }
    if i :| 0 <= i < |vs| && ScalarEqual(field, vs[i], widen) {
      assert operand.items[i] in operand.items;
    }
  }

  lemma TestOpHolds(c: Star, p: Predicate, field: Val, widen: Widening)
    requires IsClause(c) && Lowers(c, p, widen) && WellTyped(p) && p.op != "exists"
    ensures TestOp(p.op, field, p.value, widen) <==> OpHolds(p.op, field, c.items[2], widen)
  {
    if p.op == "in" {
      InHolds(field, c.items[2], p.value.vs, widen);
    } else {
      LoweredConstant(c.items[2], p.value.v, widen);
      EqualIsSame(field, p.value.v, widen);
    }
  }

  /** A lowered predicate passes an event exactly when its clause holds of it. */
  lemma LoweringPreservesMeaning(c: Star, p: Predicate, ev: Event, widen: Widening)
    requires IsClause(c) && Lowers(c, p, widen) && WellTyped(p)
    ensures Passes(p, ev, widen) <==> ClauseHolds(c, ev, widen)
  {
    var path := c.items[0].s;
    var segs := Split(path);
    var root := Root(ev, segs[0], widen);
    forall v: Val ensures FieldIs(ev, path, v, widen) <==> Resolved(ev, p.path, widen) == Some(v) {
      if root.Some? { WalkLeads(root.value, segs[1..], v); }
    }
    if p.op != "exists" {
      forall v: Val ensures TestOp(p.op, v, p.value, widen) <==> OpHolds(p.op, v, c.items[2], widen) {
        TestOpHolds(c, p, v, widen);
      }
    }
  }

  /** From source to verdict of the prefilter: for every match value that is accepted and every event, the
      prefilter answers what the clauses mean. */
  method CompileAndPrefilter(v: Star, ev: Event, widen: Widening) returns (r: Option<bool>)
    ensures r.Some? <==> IsMatch(v)
    ensures r.Some? ==> (r.value <==> forall i | 0 <= i < |v.entries[0].1.items| ::
        ClauseHolds(v.entries[0].1.items[i], ev, widen))
  {
    var preds := LowerMatch(v, widen);
    if preds.None? { return None; }
    var ok := PrefilterMatch(preds.value, ev, widen);
    ghost var clauses := v.entries[0].1.items;
    forall i | 0 <= i < |clauses| ensures Passes(preds.value[i], ev, widen) <==> ClauseHolds(clauses[i], ev, widen) {
      LoweringPreservesMeaning(clauses[i], preds.value[i], ev, widen);
    }
    return Some(ok);
  }

  /** On a present field and a scalar constant, == and != exclude each other, and one of them holds exactly
      when the two are comparable: != is the negation of == on comparable values only. */
  lemma NotEqualIsGuardedNegation(field: Val, c: Star, widen: Widening)
    ensures !(OpHolds("==", field, c, widen) && OpHolds("!=", field, c, widen))
    ensures OpHolds("==", field, c, widen) || OpHolds("!=", field, c, widen) <==>
            Comparable(FieldMeaning(field, widen), ConstantMeaning(c, widen))
  {
  }

  // ---- the vocabulary itself ----

  /** The segments between the dots, joined again. */
  function Dotted(segs: seq<string>): string {
    if segs == [] then ""
    else if |segs| == 1 then segs[0]
    else Dotted(segs[..|segs| - 1]) + "." + segs[|segs| - 1]
  }

  lemma DottedSnoc(init: seq<string>, last: string)
    ensures Dotted(init + [last]) == if init == [] then last else Dotted(init) + "." + last
  {
    assert (init + [last])[..|init|] == init;
  }

  lemma Reassociate(a: string, b: string, c: char)
    ensures a + (b + [c]) == a + b + [c]
  {
  }

  lemma DottedGrows(init: seq<string>, last: string, c: char)
    ensures Dotted(init + [last + [c]]) == Dotted(init + [last]) + [c]
  {
    DottedSnoc(init, last);
    DottedSnoc(init, last + [c]);
    Reassociate(Dotted(init) + ".", last, c);
  }

  lemma DottedEnds(segs: seq<string>)
    requires segs != []
    ensures Dotted(segs + [""]) == Dotted(segs) + "."
  {
    DottedSnoc(segs, "");
    assert Dotted(segs) + "." + "" == Dotted(segs) + ".";
  }

  /** A path is cut at its dots and nowhere else: the segments hold none, and joined with dots they are the path. */
  lemma SplitAtDots(path: string)
    ensures forall i | 0 <= i < |Split(path)| :: '.' !in Split(path)[i]
    ensures Dotted(Split(path)) == path
  {
    SegmentsHaveNoDot(path);
    SegmentsJoin(path);
  }

  lemma {:induction false} SegmentsHaveNoDot(path: string)
    ensures forall i | 0 <= i < |Split(path)| :: '.' !in Split(path)[i]
  {
    if path != "" { SegmentsHaveNoDot(path[..|path| - 1]); }
  }

  lemma {:induction false} SegmentsJoin(path: string)
    ensures Dotted(Split(path)) == path
  {
    if path != "" {
      var before, c := path[..|path| - 1], path[|path| - 1];
      var segs := Split(before);
      var init, last := segs[..|segs| - 1], segs[|segs| - 1];
      SegmentsJoin(before);
      assert segs == init + [last] && path == before + [c];
      if c == '.' { DottedEnds(segs); } else { DottedGrows(init, last, c); }
    }
  }

  lemma {:induction false} SplitPlain(name: string)
    requires '.' !in name
    ensures Split(name) == [name]
  {
    if name != "" {
      var n := |name| - 1;
      assert name[n] in name;
      SplitPlain(name[..n]);
      assert name == name[..n] + [name[n]];
    }
  }

  lemma {:induction false} SplitDotted(path: string, name: string)
    requires '.' !in name
    ensures Split(path + "." + name) == Split(path) + [name]
  {
    var whole := path + "." + name;
    var init := whole[..|whole| - 1];
    if name == "" {
      assert init == path && whole[|whole| - 1] == '.';
    } else {
      var n := |name| - 1;
      assert name[n] in name;
      assert init == path + "." + name[..n] && whole[|whole| - 1] == name[n];
      SplitDotted(path, name[..n]);
      assert name == name[..n] + [name[n]];
    }
  }

  /** What a path of one segment reads: the five names of the envelope, and nothing under any other name. */
  lemma EnvelopeFields(ev: Event, name: string, widen: Widening, v: Val)
    requires '.' !in name
    ensures FieldIs(ev, name, v, widen) <==>
            || (name == "payload" && v == Map(ev.payload))
            || (name == "event_type" && v == Str(ev.eventType))
            || (name == "event_id" && v == Str(ev.eventId))
            || (name == "entity_id" && v == Str(ev.entityId))
            || (name == "timestamp" && v == Num(widen(ev.timestamp)))
  {
    SplitPlain(name);
  }

  /** A dot descends into a map: "payload.lang" is the entry "lang" of the payload. */
  lemma DotDescends(ev: Event, path: string, name: string, widen: Widening, v: Val)
    requires '.' !in name
    ensures FieldIs(ev, path + "." + name, v, widen) <==>
            exists m: map<string, Val> :: FieldIs(ev, path, Map(m), widen) && name in m && m[name] == v
  {
    SplitDotted(path, name);
    var segs := Split(path);
    var root := Root(ev, segs[0], widen);
    assert (segs + [name])[1..] == segs[1..] + [name];
    if root.Some? { LeadsSnoc(root.value, segs[1..], name, v); }
  }

  lemma {:induction false} LeadsSnoc(from: Val, segs: seq<string>, name: string, v: Val)
    ensures Leads(from, segs + [name], v) <==>
            exists m: map<string, Val> :: Leads(from, segs, Map(m)) && name in m && m[name] == v
  {
    var longer := segs + [name];
    if segs == [] {
      assert longer[1..] == [];
      if from.Map? && name in from.m && from.m[name] == v { assert Leads(from, segs, Map(from.m)); }
    } else {
      assert longer[0] == segs[0] && longer[1..] == segs[1..] + [name];
      if from.Map? && segs[0] in from.m { LeadsSnoc(from.m[segs[0]], segs[1..], name, v); }
    }
  }

  /** The comparison is the order of the reals between the two infinities, and NaN compares with nothing. */
  lemma FloatOrder(a: Float, b: Float, x: real, y: real)
    ensures Lt(Finite(x), Finite(y)) <==> x < y
    ensures Lt(NegInf, Finite(x)) && Lt(Finite(x), PosInf) && Lt(NegInf, PosInf)
    ensures a.NaN? || b.NaN? ==> !Lt(a, b) && !Eq(a, b)
    ensures !a.NaN? && !b.NaN? ==> (Eq(a, b) <==> a == b)
    ensures !a.NaN? && !b.NaN? ==> Lt(a, b) || Lt(b, a) || a == b
    ensures !(Lt(a, b) && Lt(b, a)) && !Lt(a, a)
  {
  }

  /** Which operators take which constants. */
  lemma OperatorsAre(path: string, op: string, f: Float, i: int, s: string)
    requires path != ""
    ensures IsClause(SList([SStr(path), SStr(op)])) <==> op == "exists"
    ensures IsClause(SList([SStr(path), SStr(op), SFloat(f)])) <==> op in {"==", "!=", "<", "<=", ">", ">="}
    ensures IsClause(SList([SStr(path), SStr(op), SStr(s)])) <==> op in {"==", "!=", "prefix"}
    ensures IsClause(SList([SStr(path), SStr(op), SInt(i)])) <==>
            op in {"==", "!=", "<", "<=", ">", ">="} && -0x8000_0000_0000_0000 <= i < 0x8000_0000_0000_0000
    ensures IsClause(SList([SStr(path), SStr(op), SList([SStr(s), SStr(path)])])) <==> op == "in"
    ensures !IsClause(SList([SStr(path), SStr(op), SList([SStr(s), SFloat(f)])]))
  {
    var mixed := [SStr(s), SFloat(f)];
    assert !Alike(mixed[0], mixed[1]);
  }
}
