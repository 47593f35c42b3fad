# zerostack engines in Dafny

A model of the decision-making core of the zerostack workspace, with proofs of what those engines
promise. Nine engines are modelled, each in the form its source has: in-place objects are classes,
loops are methods with invariants, and expression code is functions. Every method is proved against
a specification function or an outright property, and the laws are proved about those.

| file | engine |
|---|---|
| `Wrappers.dfy` | optional values and results |
| `Digraph.dfy`, `BreadthFirst.dfy` | walks, reachability, cycles, and why breadth-first depths are distances |
| `Invalidation.dfy` | the influence graph: upward closure, topological order, cyclic core |
| `Recompute.dfy`, `UndeclaredReads.dfy` | full rebuild to a fixed point, with and without declared reads |
| `Incremental.dfy`, `Agreement.dfy`, `Equivalence.dfy`, `Engine.dfy` | incremental rebuild with equality cutoff and fail-closed taint, when it agrees with the full rebuild, and the engine that compares them |
| `Refinement.dfy`, `Derivability.dfy` | counterexample-guided refinement, three-valued derivability with proof paths |
| `Reservations.dfy` | reservation ledger as a state machine of declare, check, acquire and release steps |
| `Grades.dfy` | evidence-grade ledger: upgrades, cascading revocation, replay |
| `Chunking.dfy` | content-defined chunking with a rolling hash, chunk invalidation, text chunks |
| `JournalDeltas.dfy` | journal deltas: shortest changed span, integration of pages |
| `CasEviction.dfy` | content store: put, demand-guarded sweep, replication, repair, validity records |
| `CivilDate.dfy` | day counts to Gregorian dates and the order of rendered timestamps |
| `ReverseIndexing.dfy`, `GraphWalks.dfy` | reverse index by counting placement, implied-edge walk, callers within four hops |
| `CompilerImpact.dfy` | reverse impact of changed symbols under a traversal budget |
| `WitnessCache.dfy`, `SymbolQuery.dfy` | witness cache and the cached symbol query over changing snapshots |

`dafny verify dfyconfig.toml` checks the whole project.

## What is proved, and what is false of the code

- **Rebuilds.** When every producer reads only its graph predecessors, the state a full rebuild must
  reach is unique; the rebuild finds it or fails exactly when there is none; the incremental pass
  with cutoff reaches the same state for every baseline and change set and recomputes everything
  that changed. Producers with undeclared reads that wait for them are rebuilt rightly in a given
  order, whatever they compute, if and only if by presence alone all finish and none succeeds while
  something it reads is pending (`HandedInDecides`, `StaleInputIsUsed`). Pass and rebuild, made in the
  same order, agree wherever both rebuilds succeed, for all producers with given reads, if and only
  if producers come before their readers, every chain of reads is watched by the graph, and no change
  can come to a predecessor of a producer that reads its own artifact (`WatchedReadsDecide`; the
  failing inputs are `EarlyReaderGoesStale`, `UnwatchedChainGoesStale`, `OwnReaderRunsTwice`).
- **Taint.** Everything downstream of a producer that declined is reached and tainted, and never
  trusted or counted as saved.
- **Exclusion.** Over every run of reservation steps, with clocks read before the lock, exclusion
  holds at every point if and only if no declare revives an Active first record into a conflict. The
  refresh of an existing declaration reads the first record of an id, not its latest one, and
  `RevivalBreaksExclusion` gives the three-step run that breaks exclusion.
- **Grades.** Every run keeps each artifact's live upgrades an unbroken chain of lattice steps from
  its baseline, so replaying only live records gives the same grades. Revoking a record that is
  already revoked can still take down a live one (`StaleRevocationHitsLive`, a run of five
  operations); it is refused if and only if no live record goes on from where a revoked record of
  its cascade had ended (`StaleRevocationIff`). Revoking a live record can overrun what was built on it
  too (`RevocationOverruns`); `CascadeIsExactIff` says for every record when it does not.
- **Eviction.** Every run keeps a valid cold record of whatever was resident and is gone, with the
  time of the sweep that first marked it; a repeated mark keeps that time if and only if the record
  can be read or cannot be marked (`ColdTimeKeptIff`, `UnreadableRecordRestarts`). A sweep that
  deletes leaves 99 percent of demand, for every store and scan order, if and only if no size that
  was measured is lost when its object's turn comes (`FloorHoldsIff`, `LostSizeBreaksFloor`). Evict
  then repair restores an object if and only if the calls succeed, a remote target is declared and
  the first remote copy verifies; a damaged first replica blocks repair although a later one is
  intact (`DamagedReplicaBlocksRepair`).
- **Cache.** Over any queries on any succession of snapshots every answer is honest: absence is
  exact, presence lists only sites that are still there, and all of them if and only if no other
  file in scope defines the symbol now (`PresenceIsContained`); an added definer is missed
  (`AddedDefinerIsMissed`). A rejected positive insert orphans its payload exactly when no entry
  already used it (`RejectedInsertOrphans`, `ScopedPositiveOrphans`).
- **Derivability.** The proof path is the first of all walks from a root, by length and then by ids, so
  there is one answer. The grade is that of this path: a declared detour beside a runtime shortcut is
  graded as observed (`ShortcutHidesDeclaredPath`). It is static if and only if the first path uses
  declared edges only (`StaticGradeIff`).
- **Chunks.** Every chunk that ends inside a common head is shared, however short the head; an edit
  invalidates only old chunks between head and tail.

Where comments and code differ the model follows the code. The comment on the fixed-point report
bounds its iterations by the number of missing edges; the code needs at most one.

## Model

| member | source | states |
|---|---|---|
| `Invalidation.DependencyGraph.constructor` | crates/graphzero/graphzero-core/src/invalidation.rs:126-132 | a new graph has its influence class, no node and no edge |
| `Invalidation.DependencyGraph.AddDependency` | crates/graphzero/graphzero-core/src/invalidation.rs:135-138 | adds exactly one edge and makes both ends nodes |
| `Invalidation.DependencyGraph.AddDependencyKinded` | crates/graphzero/graphzero-core/src/invalidation.rs:143-151 | the same, and records the kind of that edge only |
| `Invalidation.DependencyGraph.EnsureNode` | crates/graphzero/graphzero-core/src/invalidation.rs:160-162 | adds a node and no edge |
| `Invalidation.Closure` | crates/graphzero/graphzero-core/src/invalidation.rs:167-180 | the worklist returns exactly the nodes reached from the changed ones |
| `Invalidation.DependencyGraph.UpwardClosure` | crates/graphzero/graphzero-core/src/invalidation.rs:167-180 | the same of the graph object |
| `Invalidation.DependencyGraph.CertifyInvalidation` | crates/graphzero/graphzero-core/src/invalidation.rs:183-191 | the certificate holds the changed set and its whole reach |
| `Invalidation.InDegrees` | crates/graphzero/graphzero-core/src/invalidation.rs:195-201 | the count of every node is the size of its predecessor set |
| `Invalidation.Kahn` | crates/graphzero/graphzero-core/src/invalidation.rs:194-228 | Ok exactly when the graph is acyclic, then each node once with every edge forward; otherwise the greatest set in which every node has a predecessor |
| `Invalidation.DependencyGraph.TopologicalOrder` | crates/graphzero/graphzero-core/src/invalidation.rs:194-228 | the same of the graph object |
| `Invalidation.OrderIsAcyclic` | crates/graphzero/graphzero-core/src/invalidation.rs:194-228 | a graph with a topological order has no cycle |
| `Invalidation.CoreIsCyclic` | crates/graphzero/graphzero-core/src/invalidation.rs:220-226 | what is left with predecessors is non-empty, holds every self-sustaining set, and the graph has a cycle |
| `Recompute.ConsistentIsUnique` | crates/graphzero/graphzero-core/src/invalidation.rs:280-328 | with declared reads, inputs determine the rebuilt state |
| `Recompute.BlockedStaysBlocked` | crates/graphzero/graphzero-core/src/invalidation.rs:307-321 | a producer that declines although nothing it reads is pending declines in every later attempt |
| `Recompute.FirstSweep` | crates/graphzero/graphzero-core/src/invalidation.rs:307-321 | after one ordered sweep some producer is blocked for good, or all swept ones are settled |
| `Recompute.FirstSweepDecides` | crates/graphzero/graphzero-core/src/invalidation.rs:300-327 | the first sweep either completes the rebuild or shows that none exists |
| `Recompute.SweepMeets` | crates/graphzero/graphzero-core/src/invalidation.rs:307-321 | where a consistent state exists, a sweep computes its values |
| `Recompute.FullRecompute` | crates/graphzero/graphzero-core/src/invalidation.rs:280-328 | fails on a cycle, or for a producer that no number of sweeps brings to succeed; otherwise the state after some sweeps with nothing pending and inputs kept; with declared reads Ok exactly when a consistent state exists, and then it is that state |
| `Recompute.RoundsDecided` | crates/graphzero/graphzero-core/src/invalidation.rs:300-327 | with declared reads the verdict of the first sweep stands through all retries |
| `Recompute.StalledForGood` | crates/graphzero/graphzero-core/src/invalidation.rs:322-325 | what a sweep without progress leaves pending never succeeds |
| `Recompute.TooManyRounds` | crates/graphzero/graphzero-core/src/invalidation.rs:301-305 | nor does what is pending after more sweeps than producers, so the guard never gives up too early |
| `Recompute.RebuiltIff` | crates/graphzero/graphzero-core/src/invalidation.rs:280-328 | when producers come before their readers the sweeps find exactly the state in which each value is computed in its turn, also for producers that read their own artifact |
| `UndeclaredReads.RoundsAreDry` | crates/graphzero/graphzero-core/src/invalidation.rs:299-326 | which waiting producers are done after any number of sweeps is decided by presence alone |
| `UndeclaredReads.UndeclaredReadsRebuild` | crates/graphzero/graphzero-core/src/invalidation.rs:277-328 | producers that wait for what they really read, along any acyclic relation the graph need not declare, are all rebuilt to a consistent state, unless one that is read is handed in |
| `UndeclaredReads.StaleInputIsUsed` | crates/graphzero/graphzero-core/src/invalidation.rs:285-321 | if an attempt can succeed while something it reads is pending, some producers and inputs make the rebuild inconsistent |
| `UndeclaredReads.HandedInDecides` | crates/graphzero/graphzero-core/src/invalidation.rs:277-328 | in a given order the rebuild of all waiting producers with these reads, from any values handed in, is consistent if and only if all finish and none succeeds while something it reads is pending |
| `Recompute.PresentInputsRebuild` | crates/graphzero/graphzero-core/src/invalidation.rs:280-328 | when every producer succeeds on present predecessors and all reads are covered, a rebuild exists |
| `Incremental.WalkKeepsBooks` | crates/graphzero/graphzero-core/src/invalidation.rs:372-432 | recomputed, cut-off, boundary and tainted nodes stay disjoint or nested as reported, and taint spreads to every dirty node behind it |
| `Incremental.FailureIsNeverTrusted` | crates/graphzero/graphzero-core/src/invalidation.rs:372-432 | every descendant of a failed producer is reached and tainted, and is never an equality boundary nor counted as cut off, whatever lies between |
| `Agreement.AgreesWithRebuild` | crates/graphzero/graphzero-core/src/invalidation.rs:344-441 | for declared reads the pass with cutoff ends in the consistent state of the changed inputs, and every producer whose value changed was recomputed |
| `Agreement.AgreesWhenWatched` | crates/graphzero/graphzero-core/src/invalidation.rs:344-441 | the same for undeclared reads, whenever chains of reads are watched, producers come before their readers and no change comes to a predecessor of what reads itself |
| `Equivalence.UnwatchedChainGoesStale` | crates/graphzero/graphzero-core/src/invalidation.rs:377-432 | for an unwatched chain of reads some producers with these reads keep a stale value that the rebuild changes |
| `Equivalence.EarlyReaderGoesStale` | crates/graphzero/graphzero-core/src/invalidation.rs:299-441 | a value handed in for a producer after its reader: the rebuild has the reader take it, the pass leaves the reader as it was |
| `Equivalence.OwnReaderRunsTwice` | crates/graphzero/graphzero-core/src/invalidation.rs:377-432 | a producer that reads its own artifact and is reached: the pass runs it on its own result, the rebuild on what was handed in |
| `Equivalence.WatchedReadsDecide` | crates/graphzero/graphzero-core/src/invalidation.rs:344-481 | for all producers with given reads, all inputs and all changes for which both rebuilds in the same order succeed, the comparison accepts if and only if these three do not occur |
| `Incremental.PredecessorMap` | crates/graphzero/graphzero-core/src/invalidation.rs:362-367 | inverts the edges |
| `Incremental.RunPass` | crates/graphzero/graphzero-core/src/invalidation.rs:344-441 | the loop over dirty nodes is the specified pass in a topological order; it fails exactly on a cycle |
| `Engine.RecomputeEngine.RegisterProducer` | crates/graphzero/graphzero-core/src/invalidation.rs:269-275 | registers the producer, makes it a node, changes no edge |
| `Engine.RecomputeEngine.IncrementalRecompute` | crates/graphzero/graphzero-core/src/invalidation.rs:344-441 | all of the above for the engine: fails exactly on a cycle, fail-closed taint, agreement with the rebuild where the graph suits the reads |
| `Engine.Compare` | crates/graphzero/graphzero-core/src/invalidation.rs:462-479 | Ok exactly when full and incremental values agree and every change was recomputed |
| `Engine.RecomputeEngine.AssertIncrementalEquivalence` | crates/graphzero/graphzero-core/src/invalidation.rs:444-481 | where the graph suits the reads, and so for declared ones, Ok exactly for a protected class, an acyclic graph and rebuilds that succeed before and after; divergence is never reported |
| `Refinement.OrderIsIrrelevant` | crates/graphzero/graphzero-core/src/refinement.rs:233-250 | refinement depends only on which influences a trace holds, not on order or repetition |
| `Refinement.RefinementLoop.constructor` | crates/graphzero/graphzero-core/src/refinement.rs:193-199 | starts with the graph's edges as declared, nothing applied or retained |
| `Refinement.RefinementLoop.Observe` | crates/graphzero/graphzero-core/src/refinement.rs:204-230 | adds the edge or does nothing; an added edge is labelled, retained with the next sequence number and certified with the reach of its source in the new graph; graph, labels and records keep matching one to one |
| `Refinement.RefinementLoop.Retain` | crates/graphzero/graphzero-core/src/refinement.rs:135-152 | appends one record; sequence numbers are positions, edges of records are distinct and are the applied ones |
| `Refinement.RefinementLoop.RefineToFixedPoint` | crates/graphzero/graphzero-core/src/refinement.rs:233-250 | ends in the old edges plus those of the trace, after one adding sweep if anything was new and none otherwise |
| `Refinement.RefinementLoop.ProvenanceOf` | crates/graphzero/graphzero-core/src/refinement.rs:256-269 | observed exactly for applied edges, declared exactly for edges there before |
| `Refinement.RefinementLoop.RuntimeEdges` | crates/graphzero/graphzero-core/src/derivability.rs:114-121 | the edges found through their provenance are the applied ones |
| `Derivability.FoundOnFirst` | crates/graphzero/graphzero-core/src/derivability.rs:149-160 | a node found from the head of the queue is found on the first of all walks to it |
| `Derivability.Search` | crates/graphzero/graphzero-core/src/derivability.rs:140-160 | reaches the artifact exactly when a root does, with every discovered node on its first walk by length and ids, although the search stops early |
| `Derivability.ProofPath` | crates/graphzero/graphzero-core/src/derivability.rs:162-168 | the parents lead back along exactly that walk |
| `Derivability.Derive` | crates/graphzero/graphzero-core/src/derivability.rs:133-203 | Derivable exactly when a root reaches a known artifact, with the first walk graded by its runtime edges; otherwise Unknown once any edge is runtime-observed, and absence certified only under complete coverage |
| `Derivability.AnswerIsUnique` | crates/graphzero/graphzero-core/src/derivability.rs:131-203 | there is one such answer |
| `Derivability.FirstIsShortest` | crates/graphzero/graphzero-core/src/derivability.rs:149-168 | the first walk is a shortest one |
| `Derivability.DeriveAfterRefinement` | crates/graphzero/graphzero-core/src/derivability.rs:109-203 | never claims absence once a counterexample was retained; a static grade uses declared edges only |
| `Derivability.ShortcutHidesDeclaredPath` | crates/graphzero/graphzero-core/src/derivability.rs:171-181 | a path of declared edges does not guarantee the static grade |
| `Derivability.StaticGradeIff` | crates/graphzero/graphzero-core/src/derivability.rs:162-181 | the grade is static if and only if the first walk uses declared edges only |
| `Reservations.TipIsLastWrite` | crates/graphzero/graphzero-reserve/src/ledger.rs:51-62 | the tip of an id is its last record |
| `Reservations.AppendTip` | crates/graphzero/graphzero-reserve/src/ledger.rs:68-91 | an append changes the tip of its id only |
| `Reservations.LaterIsSafer` | crates/graphzero/graphzero-reserve/src/ledger.rs:93-109 | exclusion at one time holds at every later time |
| `Reservations.AcquireIsClear` | crates/graphzero/graphzero-reserve/src/service.rs:342-411 | an acquired record collides with no tip at any time from the latest clock on |
| `Reservations.StepKeepsExclusion` | crates/graphzero/graphzero-reserve/src/service.rs:130-151 | one step keeps exclusion if and only if it is not a declare that revives an Active first record into a conflict |
| `Reservations.RunIsExclusive` | crates/graphzero/graphzero-reserve/src/service.rs:306-426 | over a run, exclusion at every point is equivalent to no such step |
| `Reservations.ExclusionWithoutRevival` | crates/graphzero/graphzero-reserve/src/service.rs:306-426 | when no valid declare meets an Active first record, no two agents hold overlapping nodes at any time from the latest clock on |
| `Reservations.RevivalBreaksExclusion` | crates/graphzero/graphzero-reserve/src/service.rs:130-151 | a run of three steps after which two agents hold the same node |
| `Reservations.DeclareRecord` | crates/graphzero/graphzero-reserve/src/service.rs:130-176 | the record written by a declare: refreshed first record or a new one, with at least the minimum lifetime |
| `Reservations.ReservationLedger.Append` | crates/graphzero/graphzero-reserve/src/ledger.rs:68-91 | appends the record and keeps the tip map equal to the last writes; when the log cannot be written, neither changes |
| `Reservations.ReservationLedger.ConflictOverlap` | crates/graphzero/graphzero-reserve/src/service.rs:211-243 | lists exactly the overlapping nodes of other agents' unexpired open reservations, once each, and their ids |
| `Reservations.ReservationLedger.Declare` | crates/graphzero/graphzero-reserve/src/service.rs:306-331 | the step of the state machine; Ok exactly for a valid request whose record is stored; answers the digest's id, the clamped lifetime and the expiry, which are the new tip's |
| `Reservations.ReservationLedger.CheckWithTtl` | crates/graphzero/graphzero-reserve/src/service.rs:342-411 | the step of the state machine; Conflict exactly when another agent blocks, Unknown exactly without conflict and without full coverage; writes only when Clear and asked to acquire; fails exactly when that write fails |
| `Reservations.ReservationLedger.Release` | crates/graphzero/graphzero-reserve/src/service.rs:413-426 | succeeds exactly for the owner of a known id whose record is stored; the tip becomes Released |
| `Grades.UpgradeKeepsSound` | crates/graphzero/graphzero-core/src/grades.rs:267-305 | an allowed upgrade extends its artifact's chain and touches no other grade |
| `Grades.DeclareKeepsSound` | crates/graphzero/graphzero-core/src/grades.rs:241-247 | a new baseline changes no other grade |
| `Grades.GradesRise` | crates/graphzero/graphzero-core/src/grades.rs:36-48 | along the live chain grades never fall |
| `Grades.SurvivorKeepsFooting` | crates/graphzero/graphzero-core/src/grades.rs:308-367 | revoking a dependency-closed set never removes the step a surviving record stands on |
| `Grades.RevokingRaisesNothing` | crates/graphzero/graphzero-core/src/grades.rs:308-367 | no artifact's grade rises by a revocation |
| `Grades.RevokingRestoresFrom` | crates/graphzero/graphzero-core/src/grades.rs:308-367 | revoking a live upgrade leaves its artifact at exactly that record's starting grade |
| `Grades.RevokedEvidenceIsDead` | crates/graphzero/graphzero-core/src/grades.rs:372-388 | after revoking an evidence id no live record carries it |
| `Grades.ReplayReproduces` | crates/graphzero/graphzero-core/src/grades.rs:252-262 | replaying only the live records succeeds and gives the grade in force |
| `Grades.EveryRunIsSound` | crates/graphzero/graphzero-core/src/grades.rs:241-388 | after any operations the live records of each artifact form a gap-free chain citing only live records, and replay gives every grade |
| `Grades.CascadeIsExactIff` | crates/graphzero/graphzero-core/src/grades.rs:308-338 | for every record the live part of its cascade is what rests on it through live records if and only if so does every live record that goes on from where a revoked record of the cascade had ended |
| `Grades.RevocationOverruns` | crates/graphzero/graphzero-core/src/grades.rs:317-338 | a run of seven operations after which the cascade of a live record holds a live one that does not rest on it |
| `Grades.StaleRevocationHitsLive` | crates/graphzero/graphzero-core/src/grades.rs:317-338 | a run of five operations after which the cascade of a revoked record holds a live one |
| `Grades.StaleRevocationIff` | crates/graphzero/graphzero-core/src/grades.rs:339-345 | revoking a revoked record is refused if and only if no live record goes on from where a revoked record of its cascade had ended |
| `Grades.CascadeOf` | crates/graphzero/graphzero-core/src/grades.rs:317-338 | the least dependency-closed set that holds the seeds |
| `Grades.Cascade` | crates/graphzero/graphzero-core/src/grades.rs:317-338 | the stack loop computes that set |
| `Grades.EffectiveOf` | crates/graphzero/graphzero-core/src/grades.rs:252-262 | the newest live record of the artifact, or its baseline, or nothing |
| `Grades.WriteNotes` | crates/graphzero/graphzero-core/src/grades.rs:351-365 | one note per revoked record, numbered in order, resting at the grade after the whole cascade |
| `Grades.Revoke` | crates/graphzero/graphzero-core/src/grades.rs:308-367 | revokes precisely the not yet revoked part of the cascade, or answers why not and changes nothing |
| `Grades.GradeLedger.DeclareGrade` | crates/graphzero/graphzero-core/src/grades.rs:241-247 | the operation of the run model; refused exactly for a declared artifact |
| `Grades.GradeLedger.EffectiveGrade` | crates/graphzero/graphzero-core/src/grades.rs:252-262 | the grade of the newest live record, nothing for an unknown artifact |
| `Grades.GradeLedger.Upgrade` | crates/graphzero/graphzero-core/src/grades.rs:267-305 | refused with the first failing check, otherwise recorded from the effective grade |
| `Grades.GradeLedger.RevokeUpgrade` | crates/graphzero/graphzero-core/src/grades.rs:308-367 | the operation of the run model, with one note for each record newly revoked |
| `Grades.GradeLedger.RevokeEvidence` | crates/graphzero/graphzero-core/src/grades.rs:372-388 | revokes the cascade of all live carriers and counts what was newly revoked |
| `Chunking.RollIsWindowHash` | crates/fszero/fszero-store/src/cdc.rs:87-99 | rolling in one byte gives the hash of the window computed afresh |
| `Chunking.SixtyfourIsLawful` | crates/fszero/fszero-store/src/cdc.rs:43-62 | 64-bit rotation and exclusive or obey the laws the rolling hash needs, for any gear table |
| `Chunking.ProgramIsLawful` | crates/fszero/fszero-store/src/cdc.rs:43-62 | in particular with the program's own table |
| `Chunking.NextCutIsFirst` | crates/fszero/fszero-store/src/cdc.rs:83-100 | a chunk ends at the first position that satisfies the cut test |
| `Chunking.TilesUnique` | crates/fszero/fszero-store/src/cdc.rs:72-114 | there is one tiling of the input by a cutting rule |
| `Chunking.ChunksTile` | crates/fszero/fszero-store/src/cdc.rs:72-114 | chunks cover the input without gap or overlap, within the size limits, each with its digest |
| `Chunking.NoChunksOfEmpty` | crates/fszero/fszero-store/src/cdc.rs:72-78 | only the empty input has no chunks |
| `Chunking.ChunksAfterBoundary` | crates/fszero/fszero-store/src/cdc.rs:72-114 | after any boundary the chunking is the shifted chunking of the rest from scratch |
| `Chunking.CommonPrefix` | crates/fszero/fszero-store/src/cdc.rs:72-114 | every chunk that ends inside a common prefix, and not merely because the input ends, is the same |
| `Chunking.UnmatchedIsDifference` | crates/fszero/fszero-store/src/cdc.rs:118-135 | the invalidated digests are the old ones minus the new ones, counted |
| `Chunking.UnmatchedIsOld` | crates/fszero/fszero-store/src/cdc.rs:118-135 | only old chunks are invalidated |
| `Chunking.EditIsLocal` | crates/fszero/fszero-store/src/cdc.rs:118-135 | an edit between a common head and a common tail that both cut where the tail starts invalidates only old chunks between them |
| `Chunking.FindCut` | crates/fszero/fszero-store/src/cdc.rs:83-100 | the rolling loop stops at the specified cut |
| `Chunking.ContentDefinedChunksBounded` | crates/fszero/fszero-store/src/cdc.rs:72-114 | the first chunks up to the bound, and where the input was cut off |
| `Chunking.ContentDefinedChunks` | crates/fszero/fszero-store/src/cdc.rs:65-67 | all chunks |
| `Chunking.ChunkInvalidations` | crates/fszero/fszero-store/src/cdc.rs:118-135 | the counting loop returns the specified invalidations |
| `Chunking.CutText` | crates/fszero/fszero-store/src/cdc.rs:146-164 | every chunk end moved forward to the first character boundary is an end of a piece and every end is one of these; a truncated last chunk is cut back instead |
| `Chunking.ContentDefinedTextChunks` | crates/fszero/fszero-store/src/cdc.rs:139-165 | the same for the chunks of the text; the pieces concatenate to all of it when the bound allows, and otherwise up to the last character boundary before the cut-off |
| `JournalDeltas.ChangedSpanIsShortest` | crates/fszero/fszero-store/src/journal_delta.rs:224-244 | no split into common prefix, replaced middle and common suffix keeps more bytes |
| `JournalDeltas.SpliceRestores` | crates/fszero/fszero-store/src/journal_delta.rs:42-56 | replacing the changed span gives the new image |
| `JournalDeltas.ComputeChangedSpan` | crates/fszero/fszero-store/src/journal_delta.rs:224-244 | the two counting loops find that span |
| `JournalDeltas.UpsertAcceptedIffMade` | crates/fszero/fszero-store/src/journal_delta.rs:42-56 | an upsert is accepted exactly when it is the delta made from the current bytes and the result |
| `JournalDeltas.RemoveAcceptedIffMade` | crates/fszero/fszero-store/src/journal_delta.rs:58-73 | a removal is accepted exactly when it is the one made from the current bytes |
| `JournalDeltas.JournalReplays` | crates/fszero/fszero-store/src/journal_delta.rs:42-218 | the journal of any edits integrates exactly when no path is blank and the sequence numbers fit, and gives the directly edited files |
| `JournalDeltas.PagesCompose` | crates/fszero/fszero-store/src/journal_delta.rs:130-218 | integrating a concatenation is integrating its halves in order, with the first error |
| `JournalDeltas.StageDelta` | crates/fszero/fszero-store/src/journal_delta.rs:140-210 | the checks of one delta in their order |
| `JournalDeltas.LogicalState.IntegrateJournalDeltas` | crates/fszero/fszero-store/src/journal_delta.rs:130-218 | all deltas are applied, or the state is untouched and the first error returned |
| `CasEviction.ReplicateReaches` | crates/fszero/fszero-store/src/replication.rs:111-146 | after success every remote target holds the hash, and no replica lost or changed anything |
| `CasEviction.SweepAccounts` | crates/fszero/fszero-store/src/cas.rs:522-642 | the outcome counters add up to the scanned objects |
| `CasEviction.SweepIsSafe` | crates/fszero/fszero-store/src/cas.rs:522-642 | live and unscanned objects are untouched; what is gone has a cold record; a readable cold record is kept, and a record that is written carries the time of the sweep |
| `CasEviction.SweepCounts` | crates/fszero/fszero-store/src/cas.rs:569-634 | the removed counter is the number of objects that are gone, and nothing else changed |
| `CasEviction.SweepKeepsFloor` | crates/fszero/fszero-store/src/cas.rs:193-205 | in any scan order, if anything is gone the mass left is at least 99 percent of demand, when no measured size is lost |
| `CasEviction.LostSizeBreaksFloor` | crates/fszero/fszero-store/src/cas.rs:585-592 | an object whose size lookup fails at its turn is evicted as if weightless, and the floor breaks |
| `CasEviction.FloorHoldsIff` | crates/fszero/fszero-store/src/cas.rs:585-592 | the floor holds for every store, demand and order if and only if no object that was measured and may be evicted loses its size |
| `CasEviction.SweepCopies` | crates/fszero/fszero-store/src/replication.rs:111-146 | whatever a sweep deleted is held by every remote target |
| `CasEviction.EvictThenRepair` | crates/fszero/fszero-store/src/replication.rs:162-208 | repair restores an evicted object if and only if its calls succeed, a target is remote and the first remote copy verifies; then that copy is resident with a warm record, and it is the evicted bytes unless these two collide |
| `CasEviction.DamagedReplicaBlocksRepair` | crates/fszero/fszero-store/src/replication.rs:168-203 | a damaged first replica makes repair fail although the second is intact |
| `CasEviction.EveryRunKeepsRecords` | crates/fszero/fszero-store/src/validity.rs:176-207 | in every run, also from a store with records, an object once resident is resident or has a valid cold record |
| `CasEviction.ColdTimeIsKept` | crates/fszero/fszero-store/src/validity.rs:191-207 | while an object stays away its record and cold time do not change |
| `CasEviction.ColdTimeIsFirstMark` | crates/fszero/fszero-store/src/validity.rs:191-207 | in every run a cold record was so from the start, or a sweep wrote it at its own time, saw no cold record before, and nothing changed it since |
| `CasEviction.UnreadableRecordRestarts` | crates/fszero/fszero-store/src/validity.rs:143-150 | a cold record that cannot be read is marked anew and loses its first time |
| `CasEviction.ColdTimeKeptIff` | crates/fszero/fszero-store/src/validity.rs:188-207 | a sweep keeps the cold record in every store and order if and only if the record can be read or cannot be marked |
| `CasEviction.RunSweep` | crates/fszero/fszero-store/src/cas.rs:555-642 | the loop is the specified sweep: counters add up, removed ones are those gone, live objects stay, the floor holds where sizes hold |
| `CasEviction.MeasureDemand` | crates/fszero/fszero-store/src/cas.rs:657-673 | the demand of the live set: resident size, else the size on a readable valid record, else nothing |
| `CasEviction.ReplicateBeforeEvict` | crates/fszero/fszero-store/src/replication.rs:111-146 | the loop over targets is the specified replication |
| `CasEviction.CasStore.PutPrehashed` | crates/fszero/fszero-store/src/cas.rs:359-401 | Ok means the bytes hash to the identity, are stored and have a fresh record, and tells whether they were new; each refusal exactly under its condition; only a failed record write leaves a change |
| `CasEviction.CasStore.GcWithDemand` | crates/fszero/fszero-store/src/cas.rs:522-642 | the step of the run model under the demand given or measured, with the guarantees of the sweep |
| `CasEviction.CasStore.RepairFromReplicas` | crates/fszero/fszero-store/src/cas.rs:766-794 | the step of the run model: first holder only, verified put, record published; counts the remote targets examined |
| `CivilDate.YearOfEraIsRight` | crates/fszero/fszero-store/src/cas.rs:968-971 | the division formula finds the year that holds the day of the era |
| `CivilDate.CivilFollowsCalendar` | crates/fszero/fszero-store/src/cas.rs:957-982 | every day count gives a valid date, and the next count the next date of the calendar |
| `CivilDate.CivilStarts` | crates/fszero/fszero-store/src/cas.rs:957-982 | day zero is the first of January 1970 |
| `CivilDate.CivilInverts` | crates/fszero/fszero-store/src/cas.rs:957-982 | counting the days of the date gives the count back |
| `CivilDate.CountedFromEpoch` | crates/fszero/fszero-store/src/cas.rs:957-982 | the valid dates with a non-negative day count are those from 1970 on |
| `CivilDate.CivilReachesAll` | crates/fszero/fszero-store/src/cas.rs:957-982 | every valid date from 1970 on comes from its day count |
| `CivilDate.CivilIncreases` | crates/fszero/fszero-store/src/cas.rs:957-982 | later counts give later dates |
| `CivilDate.RenderOrder` | crates/fszero/fszero-store/src/cas.rs:929-936 | rendered timestamps compare as strings like the instants, as in section 5.1 of RFC 3339 |
| `CivilDate.StringsCompareLikeTimes` | crates/fszero/fszero-store/src/cas.rs:929-936 | up to the year 9999 string order is the order of seconds |
| `BreadthFirst.ExpansionKeeps` | crates/graphzero/graphzero-engine/src/rewrite_closure.rs:208-237 | expanding the head keeps queue order, walk lengths and the depth of expanded nodes' successors |
| `BreadthFirst.DepthIsDistance` | crates/graphzero/graphzero-reserve/src/footprint.rs:39-51 | when the queue is empty the depth map holds exactly the nodes within the limit, at their distances |
| `ReverseIndexing.FromPairs` | crates/graphzero/graphzero-store/src/store/csr.rs:146-169 | counting, prefix sums and placement group the pairs by target in their order |
| `ReverseIndexing.PrefixSums` | crates/graphzero/graphzero-store/src/store/csr.rs:156-158 | in place, each entry becomes the one before plus its own count |
| `ReverseIndexing.BuildFiltered` | crates/graphzero/graphzero-store/src/store/csr.rs:232-252 | for every symbol the index lists all kept edges into it, once each, in scan order, also where offsets are malformed |
| `GraphWalks.ReverseCallDepth` | crates/graphzero/graphzero-reserve/src/footprint.rs:32-53 | exactly the symbols within four hops against the calls, each at its shortest distance |
| `GraphWalks.WalkImpliedEdges` | crates/graphzero/graphzero-engine/src/rewrite_closure.rs:195-239 | exactly the edges the policy follows into symbols nearer than the depth limit, each once, one hop beyond the distance |
| `GraphWalks.EmitOne` | crates/graphzero/graphzero-engine/src/rewrite_closure.rs:213-231 | one caller: its edge is emitted exactly when its kind has a relation the policy allows |
| `CompilerImpact.CheckEdge` | crates/graphzero/graphzero-core/src/cognitive_work.rs:127-137 | the error names the first edge that is not accepted and its first failing test |
| `CompilerImpact.BuildTable` | crates/graphzero/graphzero-core/src/cognitive_work.rs:126-142 | all edges accepted and every symbol's dependents listed with repetition, or the first error |
| `CompilerImpact.Traverse` | crates/graphzero/graphzero-core/src/cognitive_work.rs:143-164 | the budget is exceeded if and only if more edges lead into the reverse closure than it allows; otherwise the closure is found |
| `CompilerImpact.CompilerReverseImpact` | crates/graphzero/graphzero-core/src/cognitive_work.rs:105-178 | each refusal exactly under its condition; impacted symbols are within the closure, all of it unless the class is Incomplete, and always with a budget of at least the number of edges |
| `WitnessCache.Build` | crates/graphzero/graphzero-engine/src/witness_cache.rs:328-385 | Ok exactly with a named operator, a valid witness and all roots covered by it, and the key then holds what was given; empty fixtures count as none; each refusal under its condition |
| `WitnessCache.VerifyEntry` | crates/graphzero/graphzero-engine/src/witness_cache.rs:634-656 | reusable exactly when the witness recomputes and every root is witnessed and unchanged; unverifiable when any root is not witnessed or cannot be resolved |
| `WitnessCache.BuiltKeyVerifies` | crates/graphzero/graphzero-engine/src/witness_cache.rs:634-656 | for a built key only an unresolvable root makes the entry unverifiable |
| `WitnessCache.LookupKeeps` | crates/graphzero/graphzero-engine/src/witness_cache.rs:950-1006 | lookups keep keys unique, payloads present and nothing orphaned |
| `WitnessCache.StoreKeeps` | crates/graphzero/graphzero-engine/src/witness_cache.rs:1062-1085 | so does a store whose payload is there |
| `WitnessCache.RejectedInsertOrphans` | crates/graphzero/graphzero-engine/src/witness_cache.rs:1040-1054 | a rejected positive insert leaves no orphan if and only if its payload was already in use |
| `WitnessCache.ScopedPositiveOrphans` | crates/graphzero/graphzero-engine/src/witness_cache.rs:1040-1054 | such an insert: a built key with a scope root, into an empty cache |
| `WitnessCache.KeptIsSuffix` | crates/graphzero/graphzero-engine/src/witness_cache.rs:1009-1026 | dropping the dead keys drops exactly the entries before the hit |
| `WitnessCache.EveryRunIsSound` | crates/graphzero/graphzero-engine/src/witness_cache.rs:950-1085 | over any run: unique keys per bucket, payloads present, live entries are what was last inserted, hits plus misses are lookups, inserts are live plus collapsed plus invalidated |
| `WitnessCache.HitIsLastInserted` | crates/graphzero/graphzero-engine/src/witness_cache.rs:950-1006 | a hit comes from a verified entry of the asked bucket and is the answer last inserted under its key, up to a digest collision |
| `WitnessCache.EntryCache.constructor` | crates/graphzero/graphzero-engine/src/witness_cache.rs:876-878 | starts empty and sound |
| `WitnessCache.EntryCache.Lookup` | crates/graphzero/graphzero-engine/src/witness_cache.rs:950-1006 | the step of the run model: first usable entry answers, dead ones before it are dropped and counted |
| `WitnessCache.EntryCache.DropEntries` | crates/graphzero/graphzero-engine/src/witness_cache.rs:1009-1037 | removes the dead entries and only the outputs left unused |
| `WitnessCache.EntryCache.Store` | crates/graphzero/graphzero-engine/src/witness_cache.rs:1062-1085 | replaces the row of the same key or appends one |
| `WitnessCache.EntryCache.InsertPositive` | crates/graphzero/graphzero-engine/src/witness_cache.rs:1040-1054 | the step of the run model, keeping the invariant |
| `WitnessCache.EntryCache.InsertNegative` | crates/graphzero/graphzero-engine/src/witness_cache.rs:1057-1060 | the step of the run model, keeping the invariant |
| `SymbolQuery.ResolveFile` | crates/graphzero/graphzero-engine/src/witness_cache.rs:779-788 | a file root, parsed back from its text, is unchanged exactly when the path still has that hash |
| `SymbolQuery.ResolveScope` | crates/graphzero/graphzero-engine/src/witness_cache.rs:789-798 | a scope root is unchanged exactly when the listing under its prefix has that digest |
| `SymbolQuery.NegativeReusableIff` | crates/graphzero/graphzero-engine/src/witness_cache.rs:1153-1178 | an absence is reused exactly while toolchain and listing of the searched scope are the same |
| `SymbolQuery.PositiveReusableIff` | crates/graphzero/graphzero-engine/src/witness_cache.rs:1180-1210 | a presence is reused exactly while toolchain and supplying files are the same |
| `SymbolQuery.AbsenceIsExact` | crates/graphzero/graphzero-engine/src/witness_cache.rs:739-762 | equal listings give equal answers |
| `SymbolQuery.PresenceIsContained` | crates/graphzero/graphzero-engine/src/witness_cache.rs:1102-1210 | recorded sites are all still there, and are all there are if and only if no other file in scope defines the symbol |
| `SymbolQuery.AddedDefinerIsMissed` | crates/graphzero/graphzero-engine/src/witness_cache.rs:1180-1210 | adding a defining file leaves the entry reusable and its answer incomplete |
| `SymbolQuery.AnswerIsHonest` | crates/graphzero/graphzero-engine/src/witness_cache.rs:1102-1210 | whatever genuine entries the cache holds, the answer is honest about the current snapshot |
| `SymbolQuery.EveryAnswerIsHonest` | crates/graphzero/graphzero-engine/src/witness_cache.rs:1102-1210 | so is every answer after any queries over any succession of snapshots |
| `SymbolQuery.CachedSymbolQuery` | crates/graphzero/graphzero-engine/src/witness_cache.rs:1102-1210 | the query on the cache object is the specified one, its answer honest, the cache left sound, genuine and without orphans |

## Left out

- Integer widths: counters, masses, times and indices are unbounded; saturating and wrapping arithmetic (reservation expiry, masses, the 99 percent product, 32-bit edge indices) is not modelled, except the 64-bit hash words and the end of the journal's sequence numbers.
- Hash functions: SHA-256 and canonical JSON are arbitrary functions, and the chunking laws hold for any gear table; that two digests do not agree by accident is assumed only where a statement names the inputs.
- Concurrency and clocks: locks are taken as making each operation one step; times are arbitrary arguments of steps.
- Reading and writing files: failures of single calls are arbitrary outcomes in the content store, and a failed log write in the reservation ledger; elsewhere they are absent. The size limit of the shared store counts as a failed write. Byte layouts of ledgers, snapshots and journals are not modelled.
- Iteration order: sets and maps are visited in any order where the source visits them sorted, so contracts hold for every order, except in the derivability search, which goes by ascending ids; artifact ids are natural numbers, ordered as the 32-byte hashes they stand for. Ordered outputs are modelled as sequences only where order is promised.
- Reservations: footprint loading, evidence references inside conflict edges and response texts; coverage is one flag.
- Grades: the hub grade mapping and the history listing.
- Content store: collection of pins, roots and leases into the live set, the legacy-root sweep and the slack figure.
- CasEviction.CasStore.GcWithDemand: the scan is given as a list of the resident hashes in any order, because directory reading is not modelled.
- Journal: paging of deltas out of the database.
- CivilDate.StringsCompareLikeTimes: years after 9999, which need five digits, and timestamps in any other form than the rendered one.
- ReverseIndexing.BuildFiltered: kinds and target arrays of equal length, as the reader of the edge section guarantees; the builder of that section is not modelled.
- Rewrite closure: turning implied edges into edit sites, their deduplication and sorting.
- Witness cache: payload text and its parsing, verification statistics, cutoff telemetry, the memo of scope digests and the cached path listing; the error kind of a root that a witness does not cover is one case.
- SymbolQuery.CachedSymbolQuery: definitions are a function of toolchain, symbol, path and content; truncation by the query budget, one file standing for several with equal content, and superseded blobs still found by the query are not modelled.
- The agent loop, terminal interface, providers, permission prompts, sessions, parsers and search ranking, which hold little to prove.
