/**
 Hot reload against a concurrent editor: hash the directory, skip if the hash is the
 last one, otherwise compile and publish.  Hashing and compiling each look at every
 file once, at some moment of their own.

 `hist(name, v)` is the content of a file in its v-th version, None while it is absent;
 an edit moves a file to its next version.  `hashedAt` and `builtAt` are the versions
 that the last recorded hash and the published build looked at.
 */
module Reload {
  import opened Options
  import opened Texts
  import opened HashFraming

  type Versions = map<Text, nat>

  /** The directory's history, what compiles, and the hash. */
  datatype World = World(
    order: seq<Text>, hist: (Text, nat) -> Option<Text>, compiles: seq<File> -> bool, digest: Text -> nat)

  datatype Phase =
    | Idle
    | Hashing(seen: Versions)
    | Hashed(hash: Option<nat>, at: Versions)                       // the hash differs, or failed
    | Compiling(hash: Option<nat>, at: Versions, seen: Versions)

  datatype State = State(
    dir: Versions, phase: Phase,
    lastHash: Option<nat>, published: Option<seq<File>>,
    hashedAt: Versions, builtAt: Versions)

  datatype Action =
    | Edit(name: Text)
    | Start | LookHash(name: Text) | HashError | EndHash
    | StartCompile | LookCompile(name: Text) | CompileError | EndCompile

  /** The files present at the given versions, in name order. */
  function Listing(w: World, order: seq<Text>, at: Versions): seq<File>
    requires forall i | 0 <= i < |order| :: order[i] in at
  {
    if order == [] then []
    else
      var c := w.hist(order[0], at[order[0]]);
      (if c.Some? then [File(order[0], c.value)] else []) + Listing(w, order[1..], at)
  }

  /** Every file has been looked at. */
  predicate Looked(w: World, at: Versions) { forall i | 0 <= i < |w.order| :: w.order[i] in at }

  function HashOf(w: World, at: Versions): nat
    requires Looked(w, at)
  {
    w.digest(Stream(Listing(w, w.order, at)))
  }

  /** The reload finds the hash it recorded and does nothing. */
  predicate Skips(w: World, s: State) {
    s.phase.Hashing? && Looked(w, s.phase.seen) && s.lastHash == Some(HashOf(w, s.phase.seen))
  }

  predicate Enabled(w: World, s: State, a: Action) {
    match a
    case Edit(n) => n in s.dir
    case Start => s.phase.Idle?
    case LookHash(n) => s.phase.Hashing? && n in s.dir && n !in s.phase.seen
    case HashError => s.phase.Hashing?
    case EndHash => s.phase.Hashing? && Looked(w, s.phase.seen)
    case StartCompile => s.phase.Hashed?
    case LookCompile(n) => s.phase.Compiling? && n in s.dir && n !in s.phase.seen
    case CompileError => s.phase.Compiling?
    case EndCompile => s.phase.Compiling? && Looked(w, s.phase.seen)
  }

  function Apply(w: World, s: State, a: Action): State
    requires Enabled(w, s, a)
  {
    match a
    case Edit(n) => s.(dir := s.dir[n := s.dir[n] + 1])
    case Start => s.(phase := Hashing(map[]))
    case LookHash(n) => s.(phase := Hashing(s.phase.seen[n := s.dir[n]]))
    case HashError => s.(phase := Hashed(None, map[]))
    case EndHash =>
      if Skips(w, s) then s.(phase := Idle)
      else s.(phase := Hashed(Some(HashOf(w, s.phase.seen)), s.phase.seen))
    case StartCompile => s.(phase := Compiling(s.phase.hash, s.phase.at, map[]))
    case LookCompile(n) => s.(phase := s.phase.(seen := s.phase.seen[n := s.dir[n]]))
    case CompileError => s.(phase := Idle)
    case EndCompile =>
      var files := Listing(w, w.order, s.phase.seen);
      if !w.compiles(files) then s.(phase := Idle)            // keep the old snapshot and the old hash
      else
        var t := s.(phase := Idle, published := Some(files), builtAt := s.phase.seen);
        if s.phase.hash.Some? then t.(lastHash := s.phase.hash, hashedAt := s.phase.at) else t
  }

  ghost predicate Next(w: World, s: State, s': State) {
    exists a :: Enabled(w, s, a) && s' == Apply(w, s, a)
  }

  ghost predicate Init(w: World, s: State) {
    && s.phase == Idle && s.lastHash == None && s.published == None && s.builtAt == map[] && Looked(w, s.dir)
  }

  ghost predicate Run(w: World, run: seq<State>) {
    && |run| > 0 && Init(w, run[0])
    && forall k | 0 <= k < |run| - 1 :: Next(w, run[k], run[k + 1])
  }

  // ---- what every step keeps ----

  /** Versions `a` were looked at no later than versions `b`. */
  ghost predicate NotAfter(w: World, a: Versions, b: Versions) {
    forall i | 0 <= i < |w.order| && w.order[i] in a && w.order[i] in b :: a[w.order[i]] <= b[w.order[i]]
  }

  /** The recorded hash was looked at before the published build, and the build before now. */
  ghost predicate Recorded(w: World, s: State) {
    s.lastHash.Some? ==>
      && Looked(w, s.hashedAt) && Looked(w, s.builtAt)
      && s.lastHash.value == w.digest(Stream(Listing(w, w.order, s.hashedAt)))
      && s.published == Some(Listing(w, w.order, s.builtAt)) && w.compiles(Listing(w, w.order, s.builtAt))
      && NotAfter(w, s.hashedAt, s.builtAt)
  }

  ghost predicate PhaseOk(w: World, s: State) {
    match s.phase
    case Idle => true
    case Hashing(seen) => NotAfter(w, seen, s.dir) && NotAfter(w, s.builtAt, seen)
    case Hashed(hash, at) => NotAfter(w, at, s.dir) && HashOk(w, hash, at)
    case Compiling(hash, at, seen) =>
      NotAfter(w, seen, s.dir) && NotAfter(w, at, seen) && NotAfter(w, at, s.dir) && HashOk(w, hash, at)
          && NotAfter(w, s.builtAt, seen)
  }

  ghost predicate HashOk(w: World, hash: Option<nat>, at: Versions) {
    hash.Some? ==> Looked(w, at) && hash.value == w.digest(Stream(Listing(w, w.order, at)))
  }

  ghost predicate Inv(w: World, s: State) {
    Looked(w, s.dir) && NotAfter(w, s.builtAt, s.dir) && Recorded(w, s) && PhaseOk(w, s)
  }

  lemma LookStep(w: World, a: Versions, seen: Versions, dir: Versions, n: Text)
    requires n in dir && NotAfter(w, a, seen) && NotAfter(w, a, dir)
    ensures NotAfter(w, a, seen[n := dir[n]])
  {
  }

  lemma NotAfterTrans(w: World, a: Versions, b: Versions, c: Versions)
    requires NotAfter(w, a, b) && NotAfter(w, b, c) && Looked(w, b)
    ensures NotAfter(w, a, c)
  {
    forall i | 0 <= i < |w.order| && w.order[i] in a && w.order[i] in c ensures a[w.order[i]] <= c[w.order[i]] {
      assert w.order[i] in b;
    }
  }

  lemma EditKeeps(w: World, a: Versions, dir: Versions, n: Text)
    requires n in dir && NotAfter(w, a, dir)
    ensures NotAfter(w, a, dir[n := dir[n] + 1])
  {
  }

  lemma EndCompileStep(w: World, s: State)
    requires Inv(w, s) && Enabled(w, s, EndCompile)
    ensures Inv(w, Apply(w, s, EndCompile))
  {
    if s.lastHash.Some? {
      NotAfterTrans(w, s.hashedAt, s.builtAt, s.phase.seen);
    }
  }

  lemma EditStep(w: World, s: State, n: Text)
    requires Inv(w, s) && Enabled(w, s, Edit(n))
    ensures Inv(w, Apply(w, s, Edit(n)))
  {
    EditKeeps(w, s.builtAt, s.dir, n);
    match s.phase
    case Idle =>
    case Hashing(seen) => EditKeeps(w, seen, s.dir, n);
    case Hashed(_, at) => EditKeeps(w, at, s.dir, n);
    case Compiling(_, at, seen) => EditKeeps(w, at, s.dir, n); EditKeeps(w, seen, s.dir, n);
  }

  lemma LookHashStep(w: World, s: State, n: Text)
    requires Inv(w, s) && Enabled(w, s, LookHash(n))
    ensures Inv(w, Apply(w, s, LookHash(n)))
  {
    LookStep(w, s.builtAt, s.phase.seen, s.dir, n);
  }

  lemma LookCompileStep(w: World, s: State, n: Text)
    requires Inv(w, s) && Enabled(w, s, LookCompile(n))
    ensures Inv(w, Apply(w, s, LookCompile(n)))
  {
    LookStep(w, s.builtAt, s.phase.seen, s.dir, n);
    LookStep(w, s.phase.at, s.phase.seen, s.dir, n);
  }

  lemma PlainStep(w: World, s: State, a: Action)
    requires Inv(w, s) && Enabled(w, s, a)
        && (a.Start? || a.HashError? || a.EndHash? || a.StartCompile? || a.CompileError?)
    ensures Inv(w, Apply(w, s, a))
  {
  }

  lemma InvStep(w: World, s: State, s': State)
    requires Inv(w, s) && Next(w, s, s')
    ensures Inv(w, s')
  {
    var a :| Enabled(w, s, a) && s' == Apply(w, s, a);
    if a.Edit? {
      EditStep(w, s, a.name);
    } else if a.LookHash? {
      LookHashStep(w, s, a.name);
    } else if a.LookCompile? {
      LookCompileStep(w, s, a.name);
    } else if a.EndCompile? {
      EndCompileStep(w, s);
    } else {
      PlainStep(w, s, a);
    }
  }

  lemma {:induction false} InvAlong(w: World, run: seq<State>, k: nat)
    requires Run(w, run) && k < |run|
    ensures Inv(w, run[k])
  {
    if k > 0 {
      InvAlong(w, run, k - 1);
      assert Next(w, run[k - 1], run[k - 1 + 1]);
      InvStep(w, run[k - 1], run[k]);
    }
  }

  // ---- a matching hash ----

  /** No file ever returns to contents it has left (absence included). */
  ghost predicate NoReturn(w: World) {
    forall n, u, v, x | u <= v <= x && w.hist(n, u) == w.hist(n, x) :: w.hist(n, v) == w.hist(n, u)
  }

  ghost predicate Collisionless(w: World) {
    forall x: Text, y: Text | w.digest(x) == w.digest(y) :: x == y
  }

  ghost predicate PlainNames(w: World) {
    && (forall i | 0 <= i < |w.order| :: NUL !in w.order[i])
    && (forall i, j | 0 <= i < j < |w.order| :: w.order[i] != w.order[j])
  }

  lemma {:induction false} ListingNames(w: World, order: seq<Text>, at: Versions)
    requires forall i | 0 <= i < |order| :: order[i] in at
    ensures forall k | 0 <= k < |Listing(w, order, at)| :: Listing(w, order, at)[k].name in order
  {
    if order != [] { ListingNames(w, order[1..], at); }
  }

  /** Whether the first file is listed shows in the listing. */
  lemma FirstListed(w: World, order: seq<Text>, at: Versions)
    requires order != [] && forall i | 0 <= i < |order| :: order[i] in at
    requires forall i | 0 < i < |order| :: order[i] != order[0]
    ensures var l := Listing(w, order, at); w.hist(order[0], at[order[0]]).Some? <==> l != [] && l[0].name == order[0]
  {
    ListingNames(w, order[1..], at);
  }

  /** Equal listings agree on every file. */
  lemma {:induction false} ListingsAgree(w: World, order: seq<Text>, a: Versions, b: Versions)
    requires forall i | 0 <= i < |order| :: order[i] in a && order[i] in b
    requires forall i, j | 0 <= i < j < |order| :: order[i] != order[j]
    ensures Listing(w, order, a) == Listing(w, order, b) <==>
            forall i | 0 <= i < |order| :: w.hist(order[i], a[order[i]]) == w.hist(order[i], b[order[i]])
  {
    if order != [] {
      var n, rest := order[0], order[1..];
      ListingsAgree(w, rest, a, b);
      FirstListed(w, order, a);
      FirstListed(w, order, b);
      var x, y := w.hist(n, a[n]), w.hist(n, b[n]);
      var la, lb := Listing(w, order, a), Listing(w, order, b);
      if la == lb {
        assert x.Some? == y.Some?;
        if x.Some? {
          assert la[1..] == Listing(w, rest, a) && lb[1..] == Listing(w, rest, b);
          assert la[0].data == x.value && lb[0].data == y.value;
        } else {
          assert la == Listing(w, rest, a) && lb == Listing(w, rest, b);
        }
      }
      assert forall i | 0 <= i < |rest| :: rest[i] == order[i + 1];
    }
  }

  lemma SameHashSameListing(w: World, a: Versions, b: Versions)
    requires Looked(w, a) && Looked(w, b) && Collisionless(w) && PlainNames(w)
    requires w.digest(Stream(Listing(w, w.order, a))) == w.digest(Stream(Listing(w, w.order, b)))
    ensures Listing(w, w.order, a) == Listing(w, w.order, b)
  {
    ListingNames(w, w.order, a);
    ListingNames(w, w.order, b);
    StreamInjective(Listing(w, w.order, a), Listing(w, w.order, b));
  }

  // ---- when a reload is skipped wrongly ----

  /** The reload skips although what is published is not the build of what it just looked at. */
  ghost predicate SkipsStale(w: World, s: State) {
    Skips(w, s) && s.published != Some(Listing(w, w.order, s.phase.seen))
  }

  /** Three moments, none before the one ahead of it: the first and the last list the same files, the one
      in between lists others, and those compile. */
  ghost predicate Returns(w: World, a: Versions, b: Versions, c: Versions) {
    && Looked(w, a) && Looked(w, b) && Looked(w, c) && NotAfter(w, a, b) && NotAfter(w, b, c)
    && Listing(w, w.order, a) == Listing(w, w.order, c) != Listing(w, w.order, b)
    && w.compiles(Listing(w, w.order, b))
  }

  lemma StaleReturns(w: World, run: seq<State>)
    requires Run(w, run) && Collisionless(w) && PlainNames(w) && SkipsStale(w, run[|run| - 1])
    ensures var s := run[|run| - 1]; Returns(w, s.hashedAt, s.builtAt, s.phase.seen)
  {
    InvAlong(w, run, |run| - 1);
    var s := run[|run| - 1];
    SameHashSameListing(w, s.phase.seen, s.hashedAt);
  }

  /** Every return to an earlier listing can be timed so that a reload settles on what was there in between;
      and nothing else makes a reload settle on stale rules. */
  lemma SkipsStaleIff(w: World)
    requires Collisionless(w) && PlainNames(w)
    ensures (exists run :: Run(w, run) && SkipsStale(w, run[|run| - 1])) <==> (exists a, b, c :: Returns(w, a, b, c))
  {
    if a, b, c :| Returns(w, a, b, c) {
      var run := ReturnMasksEdit(w, a, b, c);
      assert Run(w, run) && SkipsStale(w, run[|run| - 1]);
    }
    if run :| Run(w, run) && SkipsStale(w, run[|run| - 1]) {
      StaleReturns(w, run);
    }
  }

  /** If no file returns to contents it has left, no listing returns. */
  lemma NoReturnNoReturns(w: World, a: Versions, b: Versions, c: Versions)
    requires PlainNames(w) && NoReturn(w)
    ensures !Returns(w, a, b, c)
  {
    if Returns(w, a, b, c) {
      ListingsAgree(w, w.order, a, c);
      forall i | 0 <= i < |w.order| ensures w.hist(w.order[i], b[w.order[i]]) == w.hist(w.order[i], c[w.order[i]]) {
        var n := w.order[i];
        assert a[n] <= b[n] <= c[n] && w.hist(n, a[n]) == w.hist(n, c[n]);
      }
      ListingsAgree(w, w.order, b, c);
    }
  }

  /** When a reload finds the recorded hash, the published snapshot is the build of the directory it just
      looked at; and of the directory as it is, if nobody edited it meanwhile. */
  lemma MatchingHashIsCurrent(w: World, run: seq<State>)
    requires Run(w, run) && Collisionless(w) && PlainNames(w) && NoReturn(w)
    requires Skips(w, run[|run| - 1])
    ensures var s := run[|run| - 1];
            && s.published == Some(Listing(w, w.order, s.phase.seen))
            && (SameVersions(w, s.dir, s.phase.seen) ==> s.published == Some(Listing(w, w.order, s.dir)))
  {
    var s := run[|run| - 1];
    if SkipsStale(w, s) {
      StaleReturns(w, run);
      NoReturnNoReturns(w, s.hashedAt, s.builtAt, s.phase.seen);
    }
    if SameVersions(w, s.dir, s.phase.seen) { SameListing(w, w.order, s.dir, s.phase.seen); }
  }

  // ---- a run for every return ----

  ghost predicate SameVersions(w: World, a: Versions, b: Versions) {
    Looked(w, a) && Looked(w, b) && forall i | 0 <= i < |w.order| :: a[w.order[i]] == b[w.order[i]]
  }

  lemma {:induction false} SameListing(w: World, order: seq<Text>, a: Versions, b: Versions)
    requires forall i | 0 <= i < |order| :: order[i] in a && order[i] in b && a[order[i]] == b[order[i]]
    ensures Listing(w, order, a) == Listing(w, order, b)
  {
    if order != [] { SameListing(w, order[1..], a, b); }
  }

  lemma Go(w: World, run: seq<State>, a: Action) returns (run': seq<State>)
    requires Run(w, run) && Enabled(w, run[|run| - 1], a)
    ensures Run(w, run') && run <= run' && run'[|run'| - 1] == Apply(w, run[|run| - 1], a)
  {
    run' := run + [Apply(w, run[|run| - 1], a)];
    forall k | 0 <= k < |run'| - 1 ensures Next(w, run'[k], run'[k + 1]) {
      if k < |run| - 1 { assert Next(w, run[k], run[k + 1]); }
    }
  }

  lemma EditUntil(w: World, run: seq<State>, n: Text, v: nat) returns (run': seq<State>)
    requires Run(w, run) && n in run[|run| - 1].dir && run[|run| - 1].dir[n] <= v
    ensures Run(w, run') && run'[|run'| - 1] == run[|run| - 1].(dir := run[|run| - 1].dir[n := v])
  {
    run' := run;
    var s := run[|run| - 1];
    var i := s.dir[n];
    assert s.dir[n := i] == s.dir;
    while i < v
      invariant i <= v && Run(w, run') && run'[|run'| - 1] == s.(dir := s.dir[n := i])
    {
      run' := Go(w, run', Edit(n));
      i := i + 1;
    }
  }

  /** Edit every file up to the given versions; nothing else changes. */
  lemma EditAll(w: World, run: seq<State>, to: Versions) returns (run': seq<State>)
    requires Run(w, run) && PlainNames(w) && Looked(w, run[|run| - 1].dir) && Looked(w, to)
    requires NotAfter(w, run[|run| - 1].dir, to)
    ensures Run(w, run') && SameVersions(w, run'[|run'| - 1].dir, to)
    ensures run'[|run'| - 1] == run[|run| - 1].(dir := run'[|run'| - 1].dir)
  {
    run' := run;
    var i := 0;
    while i < |w.order|
      invariant 0 <= i <= |w.order| && Run(w, run') && Looked(w, run'[|run'| - 1].dir)
      invariant run'[|run'| - 1] == run[|run| - 1].(dir := run'[|run'| - 1].dir)
      invariant forall j | 0 <= j < |w.order| :: run'[|run'| - 1].dir[w.order[j]] ==
                  if j < i then to[w.order[j]] else run[|run| - 1].dir[w.order[j]]
    {
      run' := EditUntil(w, run', w.order[i], to[w.order[i]]);
      i := i + 1;
    }
  }

  /** Look at every file for the hash, undisturbed. */
  lemma HashAll(w: World, run: seq<State>) returns (run': seq<State>)
    requires Run(w, run) && PlainNames(w) && Looked(w, run[|run| - 1].dir) && run[|run| - 1].phase.Idle?
    ensures Run(w, run') && run <= run' && run'[|run'| - 1].phase.Hashing?
    ensures run'[|run'| - 1] == run[|run| - 1].(phase := run'[|run'| - 1].phase)
    ensures SameVersions(w, run'[|run'| - 1].phase.seen, run[|run| - 1].dir)
  {
    run' := Go(w, run, Start);
    var dir := run[|run| - 1].dir;
    var i := 0;
    while i < |w.order|
      invariant 0 <= i <= |w.order| && Run(w, run') && run <= run' && run'[|run'| - 1].phase.Hashing?
      invariant run'[|run'| - 1] == run[|run| - 1].(phase := run'[|run'| - 1].phase)
      invariant forall j | 0 <= j < |w.order| :: w.order[j] in run'[|run'| - 1].phase.seen <==> j < i
      invariant forall j | 0 <= j < i :: run'[|run'| - 1].phase.seen[w.order[j]] == dir[w.order[j]]
    {
      run' := Go(w, run', LookHash(w.order[i]));
      i := i + 1;
    }
  }

  /** Look at every file for the build, undisturbed. */
  lemma CompileAll(w: World, run: seq<State>) returns (run': seq<State>)
    requires Run(w, run) && PlainNames(w) && Looked(w, run[|run| - 1].dir) && run[|run| - 1].phase.Hashed?
    ensures Run(w, run') && run <= run' && run'[|run'| - 1].phase.Compiling?
    ensures var s, t := run[|run| - 1], run'[|run'| - 1];
            t == s.(phase := Compiling(s.phase.hash, s.phase.at, t.phase.seen)) && SameVersions(w, t.phase.seen, s.dir)
  {
    run' := Go(w, run, StartCompile);
    var s := run[|run| - 1];
    var i := 0;
    while i < |w.order|
      invariant 0 <= i <= |w.order| && Run(w, run') && run <= run' && run'[|run'| - 1].phase.Compiling?
      invariant run'[|run'| - 1] == s.(phase := Compiling(s.phase.hash, s.phase.at, run'[|run'| - 1].phase.seen))
      invariant forall j | 0 <= j < |w.order| :: w.order[j] in run'[|run'| - 1].phase.seen <==> j < i
      invariant forall j | 0 <= j < i :: run'[|run'| - 1].phase.seen[w.order[j]] == s.dir[w.order[j]]
    {
      run' := Go(w, run', LookCompile(w.order[i]));
      i := i + 1;
    }
  }

  function Newborn(order: seq<Text>): (r: Versions)
    ensures forall n :: n in r <==> n in order
    ensures forall n | n in r :: r[n] == 0
  {
    map n | n in order :: 0
  }

  /** Hash the files as of `a`, build them as of `b`. */
  lemma HashThenBuild(w: World, a: Versions, b: Versions) returns (run: seq<State>)
    requires PlainNames(w) && Looked(w, a) && Looked(w, b) && NotAfter(w, a, b) && w.compiles(Listing(w, w.order, b))
    ensures Run(w, run)
    ensures var s := run[|run| - 1];
            && s.phase.Idle? && SameVersions(w, s.dir, b)
            && s.lastHash == Some(HashOf(w, a)) && s.published == Some(Listing(w, w.order, b))
  {
    run := [State(Newborn(w.order), Idle, None, None, map[], map[])];
    run := EditAll(w, run, a);
    run := HashAll(w, run);
    SameListing(w, w.order, run[|run| - 1].phase.seen, a);
    run := Go(w, run, EndHash);
    run := EditAll(w, run, b);
    run := CompileAll(w, run);
    SameListing(w, w.order, run[|run| - 1].phase.seen, b);
    run := Go(w, run, EndCompile);
  }

  /** A reload that nobody disturbs publishes the directory as it is, unless its hash is the recorded one or it does
      not compile; then everything stays. */
  lemma QuietReload(w: World, run: seq<State>) returns (run': seq<State>)
    requires Run(w, run) && PlainNames(w) && run[|run| - 1].phase.Idle?
    ensures Run(w, run') && run <= run' && Looked(w, run[|run| - 1].dir)
    ensures var s, s' := run[|run| - 1], run'[|run'| - 1];
            && s'.phase.Idle? && s'.dir == s.dir
            && if s.lastHash == Some(HashOf(w, s.dir)) || !w.compiles(Listing(w, w.order, s.dir))
               then s'.published == s.published && s'.lastHash == s.lastHash
               else s'.published == Some(Listing(w, w.order, s.dir)) && s'.lastHash == Some(HashOf(w, s.dir))
  {
    var s := run[|run| - 1];
    InvAlong(w, run, |run| - 1);
    run' := HashAll(w, run);
    SameListing(w, w.order, run'[|run'| - 1].phase.seen, s.dir);
    run' := Go(w, run', EndHash);
    if s.lastHash != Some(HashOf(w, s.dir)) {
      run' := CompileAll(w, run');
      SameListing(w, w.order, run'[|run'| - 1].phase.seen, s.dir);
      run' := Go(w, run', EndCompile);
    }
  }

  /** An editor that times the three moments makes the reload skip on stale rules. */
  lemma ReturnMasksEdit(w: World, a: Versions, b: Versions, c: Versions) returns (run: seq<State>)
    requires PlainNames(w) && Returns(w, a, b, c)
    ensures Run(w, run) && SkipsStale(w, run[|run| - 1]) && SameVersions(w, run[|run| - 1].phase.seen, c)
  {
    run := HashThenBuild(w, a, b);
    run := EditAll(w, run, c);
    run := HashAll(w, run);
    SameListing(w, w.order, run[|run| - 1].phase.seen, c);
  }

  /** One file that leaves some contents and returns to them is enough, whatever else is in the directory. */
  lemma FileReturns(w: World, n: Text, at: Versions, v: nat, x: nat)
    requires PlainNames(w) && Looked(w, at) && n in w.order && at[n] <= v <= x
    requires w.hist(n, at[n]) == w.hist(n, x) != w.hist(n, v) && w.compiles(Listing(w, w.order, at[n := v]))
    ensures Returns(w, at, at[n := v], at[n := x])
  {
    ListingsAgree(w, w.order, at, at[n := x]);
    ListingsAgree(w, w.order, at[n := v], at[n := x]);
  }
}
