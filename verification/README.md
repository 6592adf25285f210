# Fruitfly, modelled and proved

Fruitfly is a rules engine: HTTP ingest, a pool of workers that evaluate rules, and a writer
that stores results, joined by channels, with cluster routing between pods and hot reload of
rules. This project models the parts of it that carry state, concurrency or a translation, and
proves what they are for. `dafny verify dfyconfig.toml` checks all of it.

| part of the program | modules | main results |
|---|---|---|
| sliding-window counters | `CounterRing`, `CounterWindow`, `CounterInterleaving`, `CounterStore`, `CounterGcRace` | the ring of packed words agrees with the log of increments if and only if no landing is behind its slot and no bucket reaches 2^32; the same under every interleaving of loads, swaps and sums; the collector is invisible to sequential runs and costs an increment only in a race |
| counter keys in a cluster | `CounterAffinity` | each key has one home entity if and only if no entity begins with another and a colon; then the home pod's count is the cluster's |
| rendezvous routing | `Words64`, `Selection`, `Rendezvous` | `mix64` is a bijection; routers agree on every key if and only if peer sums differ; removal and addition move only the keys they must |
| batch ingest | `Ndjson`, `BatchIngest` | every line of a batch is counted once and has exactly the fate that its own size, parse and owner, the room in the queue and its peer's answer decide; on backpressure the remainder is rejected; a peer reads back exactly its lines, within its limits |
| forwarding between nodes | `ClusterRouting` | over every run with any peer lists and size limits, an event is on at most two nodes and enqueued at most once; exactly when it can be enqueued twice, or forwarded to nowhere, is stated |
| pipeline and shutdown | `Pipeline`, `ResultWriter` | every accepted event is in exactly one place; draining ends, in the flushed state unless the writer gave up; the stored table is the first-wins fold over kept results |
| rules | `RuleIndex`, `Verdicts`, `MatchLanguage` | the merged index is a sorted permutation of the linear filter and cannot change a verdict; lowering a `match` value preserves its meaning |
| reload | `HashFraming`, `Reload`, `CompileCache` | the hashed stream determines the files; a reload can skip on stale rules if and only if the directory returns to an earlier listing; the cache never shows |
| evaluation | `EvalCancel` | no rule is aborted by another event's cancellation, at most one starts late, and exactly when a late rule is left running is stated |

`Texts`, `Words`, `Options` and `Occurrences` hold the shared vocabulary. Objects that the program
updates in place are classes; protocols between goroutines or nodes are state machines whose theorems
range over every run; pure code is functions and lemmas. State that exists only to say what
happened (logs, fates, histories) is named as such where it is declared.

## Findings

Where the code does not do what it is meant to do in every case, the model follows the code, and
the exact condition is proved.

- **Peer statuses are not recognised.** `peerStatus` looks for a `StatusCode()` method
  (ingest/server.go:145-151) that `cluster.StatusError` does not have (cluster/router.go:28-35), so
  every status reads as a transport failure. `ClusterRouting` has the intended reading and the wired
  one as a parameter, `recognised`. An event of which no status is misread after its placement is
  enqueued at most once (`AtMostOnce`), and every such misreading can be continued, in two steps, to a
  double enqueue (`MisreadDuplicates`); so some run enqueues an event twice if and only if statuses are
  not recognised (`TwiceIffUnrecognised`).
- **An event can be forwarded to nowhere.** A peer answers 202 for a batch of which it rejected an
  oversized line, and the origin reports it forwarded. In every run, as intended or as wired, an event
  told forwarded is in the peer's queue if and only if it is within the peer's limit
  (`AlwaysToldTruly`); some run forwards an event to nowhere if and only if two nodes have different
  limits (`NowhereIff`).
- **An answer without its own increment.** `counter()` increments and then sums, but the sum includes
  that increment if and only if its bucket starts in the window (`OwnIncrement`): a one-second window at
  second 3659 is answered 0 (`OwnIncrementMissed`), and only windows of 59 seconds or more include it at
  every second (`AlwaysIncludedIff`).
- **Affine keys.** A second entity that is another one followed by a bare colon is already enough
  to share keys: `a::x` is affine to `a` and to `a:` (`OneEntityPerKeyIff`).
- **Hour-long windows.** On the minute a 3600-second window loses the bucket that shares a slot
  with the current minute, exactly when both have increments (`FullHourLosesABucket`).
- **Empty peer names.** `Owner` uses `""` for "none yet"; it still returns the highest scorer for
  every key hash if and only if no peer name is empty or the empty one is last
  (`SentinelHarmlessIff`). `NewRouter` makes an empty name of `/`; beside a peer `a` it loses the key `a`,
  which scores 0 for `a` (`EmptyLosesOddByte`).
- **Lost increments.** An increment that races with the collector can be lost. From every moment at
  which the collector rests and a worker is idle, an increment recent enough to count can be lost to a
  visit if and only if the key's series is aged out at the visit's clock reading; a key without a series
  counts as an empty one (`AtRiskIff`). An empty series is aged out at every reading but 3541 to 3659
  (`EmptyAgesIff`), so a first increment can be lost from second 3660 on (`RaceIsReal`); the cutoff is
  meaningless up to second 3540 (`GcKeepsPresentIff`).
- **Masked edits.** If a directory is hashed, edited, compiled and then reverted, the next reload skips.
  A reload can skip on stale rules if and only if the directory can return to an earlier listing past one
  that compiles (`SkipsStaleIff`).
- **Closing the event channel.** It is safe exactly when no handler is left (`PanicIffHandlers`), which
  `srv.Shutdown` guarantees only when it returns without error; the program closes it either way, and a
  run that ends in a send on the closed channel exists (`PanicRun`).
- **A late rule.** A rule is left to run past its deadline if and only if its step budget lasts and the
  deadline's callback either is still to come or came before `Uncancel` (`LeftRunningIff`); the latter
  does happen (`OneLateStart`).

The design document describes counters per worker that a read sums over
(docs/FRUITFLY_DESIGN.md:421); the code has one store, and the model follows the code.

## Assumptions

- A transport error means that the peer processed nothing (ingest/server.go:201-203).
- SHA-256 does not collide, and compiling a rule is a function of its source (the file name reaches
  only messages and traces).
- An id drawn for an event that has none (ingest/server.go:107-120) is no other event's entity; a peer
  that parses the event again draws another.
- A database transaction is all or nothing; its commit may take effect and still report failure.
- Clock readings are between 0 and 60 * 2^32 seconds, where a minute fits the epoch bits.

## Model

| member | source | states |
|---|---|---|
| `CounterRing.BumpedCell` | executor/counters.go:43-58 | a swap adds one to its own epoch's count or starts it at one; only the 2^32nd increment spills into the epoch bits |
| `CounterRing.LandExactIff` | executor/counters.go:46-61 | one landing keeps every slot exact if and only if it is not behind the newest epoch of its slot and the count still fits |
| `CounterRing.ExactIff` | executor/counters.go:32-61 | the ring agrees with the log at every moment if and only if landings are ordered within each slot and every bucket stays below 2^32 |
| `CounterRing.SkewIsOrdered` | executor/counters.go:47-48 | less than 60 epochs of lateness keeps landings ordered within each slot |
| `CounterRing.RecentEpochsExact` | executor/counters.go:39-61 | under the skew bound each of the last 60 epochs that landed anything has its own epoch and exact count in its slot |
| `CounterRing.SkewBoundIsTight` | executor/counters.go:55-58 | after any history, an increment exactly 60 epochs behind the minute its slot holds overwrites it |
| `CounterWindow.ShareIsClass` | executor/counters.go:66-75 | an exact slot contributes exactly the in-window increments of the epochs that share it |
| `CounterWindow.WindowSum` | executor/counters.go:63-75 | for every clock reading and window of 1 to 3600, the sum is the number of increments whose bucket starts in the window, less the one bucket a full hour loses on the minute |
| `CounterWindow.FullHourLosesABucket` | executor/counters.go:63-75 | the sum is exact if and only if it is not a full hour on the minute with increments in both buckets of the shared slot |
| `CounterWindow.BucketsBracketSeconds` | executor/counters.go:63-65 | counting by buckets lies between counting by seconds from one bucket later and from the window start |
| `CounterWindow.EdgeBucketIsOutside` | executor/counters.go:63-65 | that lower bound holds without the bucket that starts exactly at the window start |
| `CounterWindow.WindowSumInSeconds` | executor/pool.go:129-136 | the documented contract: the answer is between the increments at or after now-w+60 and those at or after now-w |
| `CounterWindow.SomeLeft` | executor/counters.go:66-75 | a window that has increments never sums to nothing: the lost bucket is not all there is |
| `CounterWindow.OneMore` | executor/counters.go:66-75 | one more increment adds one to the answer if and only if its own bucket starts in the window, less the full-hour bucket it is the first to displace |
| `CounterWindow.AlwaysIncludedIff` | executor/env.go:38-39 | a window read at once includes its own increment at every second if and only if it is 59 seconds or longer |
| `CounterInterleaving.StepConserves` | executor/counters.go:46-61 | no step of any worker loses or doubles an increment: begun is landed plus pending, per epoch |
| `CounterInterleaving.LinearStep` | executor/counters.go:46-61 | every step keeps the ring equal to the atomic replay of the landing order |
| `CounterInterleaving.RunIsLinear` | executor/counters.go:34-38 | the same at every moment of every interleaving, and the landing order only grows |
| `CounterInterleaving.InterleavedExactness` | executor/counters.go:34-61 | in every interleaving nothing is lost or doubled, and under the skew bound recent epochs are exact |
| `CounterInterleaving.SoloIncrement` | executor/counters.go:46-61 | from every moment of every run, an undisturbed increment by an idle worker lands in three steps |
| `CounterInterleaving.FailedSwapMeansLanding` | executor/counters.go:49-60 | lock-freedom: in every run a swap fails only if another increment landed in the same slot since this worker's load |
| `CounterInterleaving.FailedSwapRetries` | executor/counters.go:49-60 | a failed swap leaves everything as it was and the worker before its load with the same epoch |
| `CounterInterleaving.SoloSum` | executor/counters.go:66-75 | from every moment of every run, an undisturbed sum is the window sum of the ring |
| `CounterInterleaving.BracketedRead` | executor/counters.go:68-73 | one slot read keeps a running sum between the counts at its first read and now |
| `CounterInterleaving.ScanBracketed` | executor/counters.go:66-75 | a running sum stays bracketed at every moment of every run |
| `CounterInterleaving.ConcurrentSumBracketed` | executor/counters.go:46-75 | a sum that runs beside increments returns a value between the exact counts at its first read and at its end |
| `CounterStore.GcKeepsPresentIff` | executor/counters.go:107-116 | the collector keeps a series just incremented, whatever else it holds, if and only if the clock is past 3540 seconds |
| `CounterStore.AgedOutIff` | executor/counters.go:103-117 | from the first hour on, a series is evicted if and only if every bucket of it ended an hour ago or more |
| `CounterStore.EmptyAgesIff` | executor/counters.go:107-117 | the collector evicts a series not yet incremented at every clock reading except 3541 to 3659 |
| `CounterStore.RunsAgree` | executor/counters.go:84-121 | with and without the collector, a key's slots agree or differ only beyond the reach of every later window |
| `CounterStore.GcInvisible` | executor/counters.go:94-121 | every later sum over an allowed window is what it would be had the collector never run |
| `CounterStore.StoreContract` | executor/counters.go:77-121 | the documented contract of a count through the store, collector included |
| `CounterStore.OwnIncrement` | executor/counters.go:84-101 | with the collector running, a later sum gains exactly the increment if its bucket starts in the window, and is then positive |
| `CounterStore.CounterSeries.constructor` | executor/counters.go:39-41 | a new series is the empty ring |
| `CounterStore.CounterSeries.Increment` | executor/counters.go:46-61 | undisturbed, one landing in the ring |
| `CounterStore.CounterSeries.Sum` | executor/counters.go:66-75 | the window sum of the ring |
| `CounterStore.CounterSeries.Evictable` | executor/counters.go:111-116 | whether every slot is older than the cutoff, which truncates and wraps as the code's does |
| `CounterStore.CounterStore.constructor` | executor/counters.go:80-82 | the store of the empty history |
| `CounterStore.CounterStore.Fetch` | executor/counters.go:85-90 | the key has a series, an empty one of its own if it had none, and every other key keeps its own |
| `CounterStore.CounterStore.Increment` | executor/counters.go:84-92 | the store stands for its history with this increment added, all other keys untouched |
| `CounterStore.CounterStore.Sum` | executor/counters.go:94-101 | the window sum that the history gives for the key, nothing for an unknown one |
| `CounterStore.CounterStore.Sweep` | executor/counters.go:109-120 | in any visiting order, exactly the aged-out series are dropped |
| `CounterStore.CounterStore.Collect` | executor/counters.go:107-121 | the store stands for its history with this collection added |
| `CounterGcRace.SlotReadOld` | executor/counters.go:112-116 | an old slot, read while increments go on, means that every epoch landed in it before is old |
| `CounterGcRace.VisitDeletes` | executor/counters.go:109-119 | an undisturbed visit to an aged-out series deletes its key and nothing else |
| `CounterGcRace.VisitSpares` | executor/counters.go:109-119 | an undisturbed visit to any other series changes nothing |
| `CounterGcRace.SoloLands` | executor/counters.go:84-92 | an undisturbed increment lands in its key's live series, a new one if it had none, and in no other |
| `CounterGcRace.InvStep` | executor/counters.go:84-121 | every step of workers and collector keeps series reachable until deleted, rings exact and visits justified |
| `CounterGcRace.LostOnlyInARace` | executor/counters.go:103-121 | in every run an increment that a later window would count is lost only if its own fetch-to-swap interval overlaps the collector's visit |
| `CounterGcRace.EvictedWasAged` | executor/counters.go:112-117 | in every run a visit evicts only a series that was aged out, at the visit's reading, at every moment up to its start |
| `CounterGcRace.AgedOutRun` | executor/counters.go:103-121 | every admissible run that ends with the collector at rest, a worker idle and a key's series aged out continues to one that loses an increment of the key |
| `CounterGcRace.AtRiskIff` | executor/counters.go:103-121 | from every such moment, an increment of a key can be lost to a visit if and only if the key's series, empty if it has none, is aged out at the visit's reading |
| `CounterGcRace.RaceIsReal` | executor/counters.go:87-91 | a run in which a first increment is lost so, for every key and every time from second 3660 on |
| `CounterAffinity.AffineKeyIff` | executor/env.go:42-48 | the keys of an entity are the entity itself and the entity, a colon and a scope that is not empty |
| `CounterAffinity.OneEntityPerKeyIff` | executor/env.go:42-48 | every key is affine to at most one entity if and only if no entity begins with another and a colon |
| `CounterAffinity.HomePodCountsCluster` | executor/env.go:31-48 | with agreed peers and no fallback, the pod that makes one call with a key makes all of them, for entities in the bytes and for ids drawn by the parse alike |
| `CounterAffinity.SumIsTruthful` | executor/pool.go:133-136 | the sum a call returns is true to the history, give or take one bucket |
| `CounterAffinity.AnswerCounts` | executor/env.go:38-39 | the answer is what it was before, plus one if and only if the bucket of the call itself starts in the window |
| `CounterAffinity.OwnIncrementMissed` | executor/env.go:38-39 | an input for which the answer is 0 right after counting |
| `CounterAffinity.IncrementAndSum` | executor/env.go:38-39 | the history gains this increment, and the count returned is the window sum of that history |
| `CounterAffinity.Counter` | executor/env.go:21-40 | which calls are refused and how, that a refused call counts nothing, and that unless the clock went back an answer is true to the history and includes its own increment exactly when that bucket starts in the window |
| `Words64.UnsmearSmear` | cluster/router.go:102-106 | a xor-shift by a third of the word or more can be undone, from both sides |
| `Rendezvous.MultipliersInvert` | cluster/router.go:103-105 | both wrapping multiplications of the finaliser can be undone, from either side |
| `Rendezvous.PrimeInverts` | cluster/router.go:94-98 | and so can the hash's multiplication by its prime |
| `Rendezvous.PublishedSums` | cluster/router.go:94-98 | the sums of the empty text and of "a" are the published ones |
| `Rendezvous.SumsDifferOn` | cluster/router.go:94-98 | after equal bytes, sums are equal if and only if they were equal before |
| `Rendezvous.LastByteCounts` | cluster/router.go:94-98 | texts that differ in the last byte only never have one sum |
| `Rendezvous.OneByteApart` | cluster/router.go:94-98 | nor do texts of one length that differ in one byte anywhere |
| `Rendezvous.NumberedPodsDiffer` | cluster/router.go:94-98 | pods whose names differ in one digit have distinct sums, which is what the laws below ask for |
| `Rendezvous.MixBijective` | cluster/router.go:100-108 | `mix64` takes every word from exactly one word |
| `Rendezvous.TieIffSameSum` | cluster/router.go:82-90 | two peers tie for a key if and only if their names have the same FNV sum |
| `Selection.Pick` | cluster/router.go:79-91 | the loop computes the chosen peer |
| `Selection.ChoiceIsFirstBest` | cluster/router.go:81-90 | the chosen peer is the first of the highest scorers |
| `Selection.SameChoice` | cluster/router.go:81-90 | without ties the choice depends on the set of peers, not on their order |
| `Rendezvous.Owner` | cluster/router.go:76-92 | the owner is the chosen peer under the key's scores, and self means that it is this node's name |
| `Rendezvous.RoutersAgreeIff` | cluster/router.go:76-92 | all routers with the same peers agree on every key if and only if no two peers share an FNV sum |
| `Rendezvous.ExactlyOneOwner` | cluster/router.go:76-92 | exactly one peer claims a key, and all others name it |
| `Rendezvous.EveryPeerOwns` | cluster/router.go:76-92 | with distinct sums every peer owns some key hash |
| `Rendezvous.RemovalMovesOnlyItsKeys` | cluster/router.go:76-92 | removing a peer moves no key that another peer owned |
| `Rendezvous.AdditionMovesOnlyToIt` | cluster/router.go:76-92 | a new peer takes keys and no key moves between old peers |
| `Rendezvous.SentinelHarmlessIff` | cluster/router.go:79-90 | the highest scorer wins every key hash if and only if no peer name is empty or the empty one is last |
| `Rendezvous.EmptyLosesKey` | cluster/router.go:79-90 | beside one other peer, the key spelled like that peer goes to it although the empty name scores higher |
| `Rendezvous.EmptyLosesOddByte` | cluster/router.go:52-91 | concrete lists, of `/` and a one-byte peer, for which that happens |
| `Rendezvous.NewRouter` | cluster/router.go:44-74 | a router exists if and only if the normalised self is a normalised peer; its list is the normalised list in order |
| `Rendezvous.SlashesDoNotMatter` | cluster/router.go:46-56 | names that differ in trailing slashes normalise to one |
| `Ndjson.LinesWeigh` | ingest/server.go:260-264 | splitting loses no byte: the lines and their newlines weigh the body |
| `Ndjson.LinesHaveNoNewline` | ingest/server.go:260-264 | no piece of a split body holds a newline byte |
| `Ndjson.JoinWeighs` | ingest/server.go:284 | a joined sub-batch weighs its lines and the newlines between them |
| `Ndjson.TrimmedIsRaw` | ingest/server.go:263-264 | a line trimmed of ASCII and other Unicode white space is blank or starts and ends with none, on one line, and is no longer |
| `Ndjson.PaddingDoesNotMatter` | ingest/server.go:263-264 | every byte of ASCII white space before or after a line is trimmed |
| `Ndjson.UnicodeSpaces` | ingest/server.go:263-264 | no-break and ideographic spaces are trimmed and a zero-width space is not |
| `Ndjson.SplitJoin` | ingest/server.go:260-284 | splitting a joined sub-batch gives exactly its lines back, in order |
| `BatchIngest.SettleFirst` | ingest/server.go:302-312 | settling the next waiting line of a peer changes that line alone |
| `BatchIngest.GroupBody` | ingest/server.go:283-285 | the body for a peer reads back as its group, and weighs no more than the lines handled |
| `BatchIngest.BatchRequest.constructor` | ingest/server.go:252-258 | an empty account |
| `BatchIngest.BatchRequest.Enqueue` | ingest/server.go:364-369 | a non-blocking offer: the line is enqueued exactly if the queue has room then, and otherwise rejected with backpressure set |
| `BatchIngest.BatchRequest.Reject` | ingest/server.go:333-349 | one line more, rejected |
| `BatchIngest.BatchRequest.Stage` | ingest/server.go:351-361 | one line more, waiting for its owner, raw line and event in step |
| `BatchIngest.BatchRequest.Accept` | ingest/server.go:364-365 | one line more, its own event enqueued once |
| `BatchIngest.BatchRequest.Sort` | ingest/server.go:333-370 | a line gets exactly the fate that backpressure, its size, parse and owner and the room in the queue decide, and is offered only if it is ours |
| `BatchIngest.BatchRequest.Line` | ingest/server.go:327-370 | a blank line leaves no trace; every other gets that fate, and what reading decided so far is the whole account |
| `BatchIngest.BatchRequest.ReadLines` | ingest/server.go:260-280 | the non-blank complete lines are handled in order; an error discards the unfinished one |
| `BatchIngest.BatchRequest.Dispatch` | ingest/server.go:282-285 | a peer's group leaves and its body is sent |
| `BatchIngest.BatchRequest.Resolve` | ingest/server.go:286-300 | an answered group is forwarded or rejected as a whole |
| `BatchIngest.BatchRequest.Answered` | ingest/server.go:286-300 | every waiting line of the peer is forwarded or rejected, with backpressure passed on if and only if the status is 429 |
| `BatchIngest.BatchRequest.OfferHere` | ingest/server.go:305-312 | the next line of an unreached group is enqueued here exactly if the queue has room then |
| `BatchIngest.BatchRequest.OfferNext` | ingest/server.go:305-312 | the same, with the lines before it as they were settled and the others still waiting |
| `BatchIngest.BatchRequest.Fallback` | ingest/server.go:302-312 | the lines of an unreached group are the next offers, in order, each taken exactly if there is room |
| `BatchIngest.BatchRequest.Conclude` | ingest/server.go:286-312 | a sent group is acknowledged, rejected or offered here, as its peer answered |
| `BatchIngest.BatchRequest.Forward` | ingest/server.go:282-313 | one group is sent as one body and settled by the answer, and every other group is untouched |
| `BatchIngest.BatchRequest.ForwardAll` | ingest/server.go:282-313 | in any order of the peers no line is left waiting, and each peer is sent exactly its lines once |
| `BatchIngest.BatchRequest.Handle` | ingest/server.go:240-325 | accepted + forwarded + rejected is the number of non-blank complete lines, accepted is what was enqueued, every line has the fate it must have, each peer with staged lines is sent one body of exactly those lines in order, nothing is sent if the request was forwarded already, overload is a refused offer or a 429, and the status follows |
| `BatchIngest.StagedIff` | ingest/server.go:333-361 | a line is staged for a peer if and only if the queue was never full before, it fits, the request may be routed and that peer owns it |
| `BatchIngest.OursIff` | ingest/server.go:351-369 | a line is for this node's queue if and only if it fits and the request may not be routed or this node owns it |
| `BatchIngest.NothingSent` | ingest/server.go:23-26 | the one-hop bound: a request that was forwarded already is not sent on, whoever owns its lines |
| `BatchIngest.ForwardedStaysHere` | ingest/server.go:351-369 | instead every line of it that fits is offered to this node's queue, until that is full |
| `BatchIngest.DeliveredStep` | ingest/server.go:282-285 | sending one group keeps it so that every peer with staged lines has its group or one body of exactly those lines |
| `BatchIngest.ForwardedWasSent` | ingest/server.go:284-288 | a line reported forwarded is in the body sent to a peer that answered with success |
| `BatchIngest.RemainderRejected` | ingest/server.go:242-246 | the line that finds the queue full and every line after it are rejected |
| `BatchIngest.CalmFate` | ingest/server.go:242-246 | until then a line's fate is decided by the line, its owner and that peer's answer, whatever the other lines are; only a line that comes back depends on the queue again |
| `BatchIngest.AllSettled` | ingest/server.go:225-230 | with no group left, the three counts add up to the lines |
| `BatchIngest.BodiesFit` | ingest/server.go:251-284 | no forwarded body is longer than the body read |
| `BatchIngest.PeerReadsTheGroup` | ingest/server.go:251-287 | with equal limits the peer reads exactly the group's lines, within its body and line limits |
| `ClusterRouting.InvStep` | ingest/server.go:180-213 | every step of every node, with statuses recognised or not, keeps each event on at most two nodes and what its client was told true |
| `ClusterRouting.AlwaysToldTruly` | ingest/server.go:282-313 | over every run with any peer lists and limits, an event told accepted is in some queue, and one told forwarded is in the peer's queue alone if it is within that peer's limit and otherwise in none |
| `ClusterRouting.OnceStep` | ingest/server.go:294-312 | a step enqueues an event again only where a status is misread after its placement |
| `ClusterRouting.AtMostOnce` | ingest/server.go:282-313 | over every run, an event of which no status is misread is enqueued on at most one node |
| `ClusterRouting.AtMostOnceAsIntended` | ingest/server.go:189-206 | every event of every run, once statuses are recognised |
| `ClusterRouting.TakenHere` | ingest/server.go:208-213 | from every run, an event taken where it was submitted is in that queue and told accepted if there is room and it is within the limit, and otherwise in none and told rejected |
| `ClusterRouting.ForwardWorks` | ingest/server.go:183-188 | with room at the owner and within both limits, a forwarded event ends in the owner's queue alone and is told forwarded |
| `ClusterRouting.FullOwnerRejects` | ingest/server.go:189-199 | with no room there and statuses recognised, it ends in no queue and is told rejected |
| `ClusterRouting.UnreachedFallsBack` | ingest/server.go:201-213 | if the owner is not reached, it is offered where it was submitted |
| `ClusterRouting.MisreadDuplicates` | ingest/server.go:145-151 | every run whose last state misreads a status after an event's placement extends by two steps to a double enqueue of that event |
| `ClusterRouting.DuplicateAsWired` | cluster/router.go:28-35 | a run of the program as wired that enqueues one event on two nodes |
| `ClusterRouting.TwiceIffUnrecognised` | ingest/server.go:145-151 | some run enqueues an event twice if and only if statuses are not recognised |
| `ClusterRouting.ForwardedNowhere` | ingest/server.go:286-289 | for either reading of statuses, any two nodes and any size between their limits, a run in which that event goes from one to the other, is reported forwarded and is enqueued nowhere |
| `ClusterRouting.NowhereNeedsLimits` | ingest/server.go:333-336 | every such run has a peer with a smaller limit than an origin |
| `ClusterRouting.NowhereIff` | ingest/server.go:286-289 | for either reading of statuses, such a run exists if and only if two nodes have different limits |
| `Pipeline.PlacesStep` | executor/pool.go:138-142 | no step adds an event to a place or takes one away, except that an enqueue adds the new one |
| `Pipeline.OrderedStep` | main.go:250-267 | every step keeps channels within capacity and closed in order, and no worker sends on a closed channel |
| `Pipeline.EveryEventInOnePlace` | executor/pool.go:91-142 | over every run each accepted event is in exactly one place, and a send on a closed channel needs a failed HTTP shutdown |
| `Pipeline.EnqueueAccepts` | ingest/server.go:134-141 | from every run, a handler's event is accepted whenever the open channel has room, behind all others |
| `Pipeline.OldestFirst` | executor/pool.go:138-142 | in every run a worker takes the oldest event in the channel |
| `Pipeline.EventGoesThrough` | executor/pool.go:138-142 | a run in which an event is enqueued, evaluated and flushed, or skipped where the policy drops it |
| `Pipeline.PanicIffHandlers` | main.go:254-267 | after the event channel is closed a panic is possible if and only if a handler is left |
| `Pipeline.PanicRun` | main.go:254-267 | a run in which the HTTP shutdown fails, the channel is closed and a handler sends on it |
| `Pipeline.DrainStep` | main.go:265-285 | once draining, every step, forced or not, shrinks the measure and keeps draining |
| `Pipeline.DrainProgress` | output/writer.go:132-156 | while draining is not finished some step is possible |
| `Pipeline.FinishedIsFlushed` | output/writer.go:146-148 | when the writer finishes, every accepted event was flushed once, skipped once, or is still on its way, which needs a writer that gave up |
| `Pipeline.DrainCompletes` | main.go:265-291 | every drain is bounded, and where it can go no further every accepted event is flushed or skipped, unless a forced writer gave up before it arrived |
| `ResultWriter.FirstWins` | output/writer.go:226-280 | a row is kept if present, and otherwise is the earliest result with its id |
| `ResultWriter.InsertAllConcat` | output/writer.go:213-224 | inserting in batches is inserting the concatenation |
| `ResultWriter.RetryIsHarmless` | output/writer.go:217-223 | inserting a batch twice is inserting it once |
| `ResultWriter.KeptIff` | output/writer.go:77-81 | the policy drops exactly approvals without failures, and only if it is on |
| `ResultWriter.InterestingIsKept` | output/writer.go:77-81 | a block, a review or a result with a failed rule is kept in every stream |
| `ResultWriter.InterestingIsStored` | output/writer.go:65-82 | and its id is in the table that the stream leaves |
| `ResultWriter.Writer.constructor` | output/writer.go:85-114 | the writer of an empty stream over the table found |
| `ResultWriter.Writer.Count` | output/writer.go:66-76 | exactly the counter of the verdict, and the error counter if rules failed, goes up |
| `ResultWriter.Writer.Observe` | output/writer.go:63-82 | the tallies count the results seen, and the policy keeps all but uninteresting approvals |
| `ResultWriter.Writer.InsertBatch` | output/writer.go:226-280 | all rows by insert-or-ignore, or none |
| `ResultWriter.Writer.Store` | output/writer.go:213-224 | the batch is stored once unless both attempts fail |
| `ResultWriter.Writer.Flush` | output/writer.go:206-224 | the batch moves to the flushed stream and only a double failure drops it |
| `ResultWriter.Writer.Receive` | output/writer.go:145-157 | a kept result joins the batch, which is flushed at exactly 100; flushes plus batch stay the kept results in order |
| `ResultWriter.Writer.Run` | output/writer.go:132-204 | however size, ticker and drain cut the stream, if no batch failed twice the final table is the first-wins fold over the kept results, and has the id of every result received with a block or review verdict or a failed rule |
| `Verdicts.InterpretVerdict` | executor/verdict.go:28-61 | an outcome is a verdict if and only if the value is a struct with type approve, block or review and a string reason, and then it is those |
| `Verdicts.TopSays` | types/types.go:28-41 | among the results of the highest priority block beats review and review beats everything but block |
| `Verdicts.ResolveVerdict` | executor/verdict.go:11-26 | block if some result of the highest priority says block, else review if some says review, else a verdict that one of them says; approve for none |
| `Verdicts.TopIsUnique` | executor/verdict.go:11-26 | with known verdicts the result depends only on which results there are |
| `Verdicts.UnknownVerdictsTie` | types/types.go:30-41 | with unknown verdicts it would not |
| `RuleIndex.MergedCount` | rules/compiler.go:102-118 | a merge holds each rule as often as its two inputs together |
| `RuleIndex.MergedDescending` | rules/compiler.go:102-118 | a merge of descending lists is descending |
| `RuleIndex.MergeByPriority` | rules/compiler.go:104-118 | the two-index loop computes that merge |
| `RuleIndex.MergedIsMatching` | rules/compiler.go:77-100 | a type's rules merged with the wildcards are a descending permutation of the linear filter |
| `RuleIndex.MatchingIs` | rules/compiler.go:67-74 | the filter keeps exactly the rules for the event type and the rules for "*" |
| `RuleIndex.Snapshot.constructor` | rules/compiler.go:233-239 | a snapshot of sorted rules, indexed or not |
| `RuleIndex.Snapshot.FileRule` | rules/compiler.go:87-93 | one more rule is filed under its type and the other types are untouched |
| `RuleIndex.Snapshot.BuildIndex` | rules/compiler.go:84-100 | every type seen has its rules merged with the wildcards, and no other type has any |
| `RuleIndex.Snapshot.MergeAll` | rules/compiler.go:94-99 | the merges, in any order of the types |
| `RuleIndex.Snapshot.RulesForEvent` | rules/compiler.go:59-75 | for every event type and with or without index, a priority-descending permutation of the linear filter |
| `RuleIndex.EvalRule` | executor/pool.go:254-278 | a result exactly if the rule returns a well-formed verdict, with that verdict |
| `RuleIndex.ProcessEvent` | executor/pool.go:187-219 | each matched rule has one fate, decided by prefilter, deadline and returned value in that order; results, failures and verdict are those fates' |
| `RuleIndex.FatesPartition` | executor/pool.go:190-214 | prefiltered, triggered and failed rules together are the matched rules |
| `RuleIndex.OneRulesFate` | executor/pool.go:193-213 | a rule that passes the prefilter fails if the deadline has passed or evaluation fails, and counts if in time it returns a well-formed verdict |
| `RuleIndex.AliveResults` | executor/pool.go:206-213 | within the deadline the triggered results are those of all rules that return a verdict |
| `RuleIndex.IndexDoesNotChangeVerdict` | executor/verdict.go:14-26 | whatever the rules return, the verdict is the same for every order of the same rules |
| `RuleIndex.ResortedFilter` | rules/compiler.go:223-226 | every sort of the rules gives the same filter up to order |
| `MatchLanguage.ResolvePath` | rules/match.go:88-118 | the loop finds what the path leads to, or nothing |
| `MatchLanguage.Eval` | rules/match.go:40-86 | a well-typed predicate is evaluated without a fault |
| `MatchLanguage.PrefilterMatch` | rules/match.go:31-38 | every predicate passes |
| `MatchLanguage.LowerList` | rules/match.go:219-239 | accepts exactly non-empty lists of scalars of one type |
| `MatchLanguage.LowerClause` | rules/match.go:193-258 | accepts exactly the clauses of the language, and lowers path, operator and operand |
| `MatchLanguage.LowerMatch` | rules/match.go:173-260 | accepts exactly `{"all": [clauses]}`, one well-typed predicate for each clause |
| `MatchLanguage.LoweredIsWellTyped` | rules/match.go:210-256 | no accepted predicate has an empty path or an operand of the wrong shape |
| `MatchLanguage.EqualIsSame` | rules/match.go:120-171 | comparing lowered scalars is comparing what they mean |
| `MatchLanguage.LoweringPreservesMeaning` | rules/match.go:40-86 | for every accepted clause and every event, the predicate passes if and only if the source clause holds |
| `MatchLanguage.CompileAndPrefilter` | rules/match.go:31-38 | for every `match` value and event, compiling then prefiltering decides the conjunction of the source clauses |
| `MatchLanguage.NotEqualIsGuardedNegation` | rules/match.go:137-152 | `!=` is the negation of `==` on comparable values and false on all others |
| `MatchLanguage.SplitAtDots` | rules/match.go:210 | a path is cut at its dots and nowhere else: no segment holds one, and joined with dots they are the path |
| `MatchLanguage.EnvelopeFields` | rules/match.go:88-106 | a path of one segment reads payload, event_type, event_id, entity_id or timestamp, each its own field, and nothing else |
| `MatchLanguage.DotDescends` | rules/match.go:107-117 | a path with one more segment reads that entry of the map that the path without it reads |
| `MatchLanguage.FloatOrder` | rules/match.go:154-159 | comparison is the order of the reals between the infinities, total but for NaN, which compares with nothing |
| `MatchLanguage.OperatorsAre` | rules/match.go:206-256 | which operators take no value, a number, a string or a list |
| `HashFraming.Feed` | rules/reloader.go:188-196 | the loop feeds the framed files in order |
| `HashFraming.StreamInjective` | rules/reloader.go:180-198 | lists of files with NUL-free names that give one stream are one list |
| `HashFraming.NulInNameCollides` | rules/reloader.go:194-195 | with a NUL in a name two different lists give one stream |
| `Reload.InvStep` | rules/reloader.go:150-171 | every step of editor and reloader keeps what was hashed no newer than what was compiled |
| `Reload.ListingsAgree` | rules/reloader.go:182-198 | two moments list the same files if and only if every file has the same content at both |
| `Reload.StaleReturns` | rules/reloader.go:150-171 | every skip on stale rules shows a directory that returned to an earlier listing past one that compiled |
| `Reload.ReturnMasksEdit` | rules/reloader.go:156-159 | every such return, in any directory, gives a run in which a reload skips on stale rules |
| `Reload.QuietReload` | rules/reloader.go:150-178 | from every run, a reload that nobody disturbs publishes the directory as it is, unless its hash is the recorded one or it does not compile, and then changes nothing |
| `Reload.SkipsStaleIff` | rules/reloader.go:150-171 | some run skips on stale rules if and only if some listing returns |
| `Reload.FileReturns` | rules/reloader.go:156-159 | one file that returns to contents it left is such a return |
| `Reload.NoReturnNoReturns` | rules/reloader.go:150-171 | if no file returns to earlier contents, no listing does |
| `Reload.MatchingHashIsCurrent` | rules/reloader.go:150-171 | if no file returns to earlier contents, a skipped reload finds the published rules to be those of the directory it hashed |
| `CompileCache.FromScratchUnique` | rules/compiler.go:169-170 | compiling from scratch has one result |
| `CompileCache.Compiler.constructor` | rules/compiler.go:125-130 | an empty cache |
| `CompileCache.Compiler.Lookup` | rules/compiler.go:137-142 | a hit is what compiling the source gives |
| `CompileCache.Compiler.CompileAndStore` | rules/compiler.go:144-154 | the source is compiled and, if that works, stored, whatever was stored meanwhile |
| `CompileCache.Compiler.CachedCompile` | rules/compiler.go:132-155 | what compiling the source gives, whether or not it was cached |
| `CompileCache.Compiler.Prune` | rules/compiler.go:157-167 | exactly the unused entries go |
| `CompileCache.Compiler.CompileAll` | rules/compiler.go:181-203 | every file's own result, in any interleaving of the goroutines' lookups and stores |
| `CompileCache.Compiler.Assemble` | rules/compiler.go:210-220 | a rule list in file order, or a failure if a rule id occurs twice |
| `CompileCache.Compiler.CompileDir` | rules/compiler.go:169-221 | whatever the cache holds, the result is the one from scratch, all or nothing, and the cache then holds exactly this build |
| `EvalCancel.TimersStep` | executor/pool.go:149-165 | a callback runs only during its own event |
| `EvalCancel.FlagStep` | executor/pool.go:149-250 | every step keeps the flag clear exactly as long as neither the budget nor a timely callback ends the rule |
| `EvalCancel.InvStep` | executor/pool.go:244-254 | every step of worker and callbacks keeps the cancellation flag, late starts and budgets in order |
| `EvalCancel.CancellationsStayWithTheirEvent` | executor/pool.go:149-254 | over every run no rule is aborted for another event, at most one evaluation of an event starts after its deadline, and each starts with exactly the fixed budget |
| `EvalCancel.LeftRunningIff` | executor/pool.go:197-254 | at every moment of every evaluation the flag is clear if and only if the step budget lasts and the callback is still to come or came before Uncancel; after such an early callback only the budget ever sets it |
| `EvalCancel.ExhaustCancels` | executor/pool.go:244-265 | in every run a rule that exhausts its budget with the flag clear is cancelled and aborted by its own budget |
| `EvalCancel.RunawayIsStopped` | executor/env.go:11-15 | from every start of an evaluation exactly 10,000,000 steps fit, and then no further one |
| `EvalCancel.OneLateStart` | executor/pool.go:197-251 | a run in which a callback comes that early, and the rule starts after its deadline |

## Left out

- HTTP transport, headers, JSON and timestamp parsing: `parseEvent` is a function of the line and its number.
- `handleEvent`: in `ClusterRouting` it is a group of one line that is no batch; its status codes are not modelled.
- The Starlark interpreter, user-defined functions and the regular-expression cache: a rule is an outcome, or a sequence of steps.
- DuckDB and retention: the table is a map with insert-or-ignore; nothing is deleted from it.
- Webhooks: delivery, its retries and its concurrency limit.
- The shards of the counter store: a shard is a function of the key, so the model has one map.
- Exit of the process while goroutines still run, after the last shutdown timeouts (main.go:276-291).
- `sort.Slice` in CompileDir: every sorted permutation is accepted, and `RuleIndex` proves that the choice does not matter.
- File-system notification, debouncing and polling: reloads start at any time.
- float64: widening from int64 is an arbitrary function, and comparisons follow the IEEE order with NaN and infinities; arithmetic is not needed.
- Error texts, logs and the admin, trace, replay, configuration and test-data code: loading, printing and reporting.
- `executor/event.go` and `rules/stats.go`: lazy conversion of events, and averages.
- Claims about balance, moved fractions and speed: statistical.
