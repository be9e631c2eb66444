# Verified models of the forme kernel

forme is a personal-agent kernel written in Rust. This project models the parts of it in which a mistake
would be hardest to see: small state machines that must keep their promises over any sequence of calls, graph
algorithms, a text codec, and projections that must not depend on the order of their input. Each part has a
module of functions that say what every operation does, lemmas about whole runs or all inputs, and, where the
source updates state in place, a class or a method with loops that is proved to follow those functions.

| files | what they model |
|---|---|
| `RouteGraph`, `RouteRuntime`, `RouteInvariant`, `RouteRuns`, `RouteProgress`, `RouteFailures`, `RouteStarts`, `RouteOutcomes`, `RouteEngine` | admitting an execution route by Kahn's algorithm and running it with failure policies, retries, cancellation and a budget ledger |
| `CoordinationStrategy` | pruning a route to its heaviest roles |
| `DependencyClosure`, `DependencyArrangement` | the depth-limited, memoised search that verifies a package's dependency closure, and how far the order of the lists decides its verdict |
| `CapabilityIndex`, `PackageRegistry`, `PackageRuns`, `PackageEngine` | the capability index and the generation-fenced package registry over it |
| `ContextAssembly`, `ContextContents`, `CompactionContents` | greedy context assembly and transactional compaction, tied by one estimate |
| `Text`, `Decimal`, `TemporalCodec`, `CodecForms` | the text form of semantic candidates |
| `Retraction`, `RetractionRuns` | retraction over the lineage graph and replay of the event log |
| `ManagedPlugins`, `PluginRuns`, `PluginEngine` | plugin activation and the lock-in of a managed policy |
| `Attention` | the interrupt ledger |
| `Sessions`, `SessionRuns` | bounded communication sessions |
| `Approvals` | the approval broker |
| `ResourceGraph`, `ResourceRuns`, `ResourceGraphEngine` | rebuilding the resource graph from events |
| `Ranking`, `RankingScores`, `Placement` | ranking candidates and placing federated tasks |
| `Replay`, `ReplayContents` | the two builders of portable replay archives |
| `Common`, `Sequences`, `Orders`, `Scopes` | shared vocabulary: machine integers, sums, orders, stable sorting, filtering, scope containment |

Run-level statements start from the empty or initial state and quantify over every sequence of operations;
whatever the operations receive from outside (clock readings, verdicts of validators and signature verifiers,
whether the event store accepted an append) is a parameter of the operation, so the statements hold for all of
its values. Machine integers are modelled where they matter: saturating and wrapping additions, 64-bit
generations, 32-bit counters. Automatic induction is switched off on every lemma, so each inductive proof is
the one its body spells out.

## Findings

Places where the code does something that its surroundings do not suggest. The models follow the code, and the
lemmas named here state exactly when the expected property holds.

- A retry after an aborting failure leaves the nodes that the abort cancelled as they are, and the route can then
  say `Running` for ever (`RetryAfterAbortStrands`, `RetryDeadlocksExactly`, `CompletableExactly`). Without retries
  only a budget that can never be afforded does that (`NeverHaltsExactly`).
- A failure that finds nothing runnable fails the route, even a tolerated one and even while other nodes run. No node
  can be started then, and the route is completed after all exactly when only running nodes are left
  (`EndedRouteFinishesExactly`); the order of the last two results can decide the outcome (`LastFailureDecides`).
- The depth limit of a dependency closure bounds the paths the search walks, not every path: from a limit of two on,
  a sound closure that declares nothing twice and has a longer path is accepted or refused according to the order of
  its lists. That order is the sorted one: a dependency's schema version decides first, which the publisher chooses and
  the model leaves out, and among equal versions the names do (`DeclarationOrderDecidesDepth`).
  `EveryArrangementPassesExactly` and `ArrangementDecidesExactly` say for which closures the order matters.
- Undeclared admissions are excluded by comparing counts, which two declarations of one release defeat
  (`TwoVersionsHideAnUndeclaredAdmission`, `CountCheckExcludesUndeclaredExactly`).
- Source references join package and release with `:`; names that collide let one package evict another's
  entries (`ColonNamesCollide`, `CollisionBreaksMirror`, `CoherentRunsExactly`).
- The only generation accepted after the greatest 64-bit one is zero, which enabling always refuses: such a package
  can only be disabled with generation zero, after which its generations start over (`GenerationsStepExactly`).
- A retraction whose follow-up append fails is only partly in the log, so a replay admits again what the live
  state excludes (`FailedTaskAppendIsForgotten`, `RunStaysInSyncExactly`).
- A lineage edge may be recorded out of a retracted object, and its target stays usable
  (`LateEdgeLeavesTargetUsable`) or, when it was only downgraded, becomes usable again (`DowngradedTargetComesBack`).
  What stays out for good is what is retracted or invalidated (`ExcludedExactly`), and
  `RetractionStaysClosedExactly` says when that covers all that retracted objects lead to.
- At the last 64-bit instant the interrupt ledger forgets at once what it has just granted (`BoundHoldsExactly`). A
  clock that runs backwards breaks its bound, unless the policy allows at most one interruption, its window is
  empty, or no grant can expire (`AnyClockBoundHoldsExactly`).
- Session counters saturate, so a limit at the top of its integer type can be passed: the token limit as soon as two
  charges fit, the message limit with half as many rounds, the round limit only together with the message limit
  (`TokensOverrunExactly`, `MessagesOverrunExactly`, `RoundsOverrunExactly`).
- A trusted revocation of a resource that has no node yet has no effect on the node that appears later
  (`UnavailableExactly`).
- A replay request with a schema version other than 1 passes validation, but its archive carries the digest of the
  request and is checked against the digest of the manifest, whose version is 1 (`SecondVersionIsRefused`,
  `VersionMismatchIsRefused`, `VersionOneBuildsExactly`).
- Evidence schema versions, an empty gap and a complement list of one empty text do not survive the text form
  (`RecordsSurviveExactly`).

## Supporting members

Some members are there for the results below and say little by themselves, so they have no row: the case
distinctions `RouteInvariant.CancelKeepsGraph`, `ContextAssembly.AcceptedIsBelowThreshold`,
`ContextAssembly.SecondCompactionFindsNothing`, `ContextAssembly.CompactionIsTransactional`,
`ManagedPlugins.ManagedRefusesReload`, `Placement.EligibleExactly`, `Attention.ExpiredExactly` and
`PackageRegistry.GenerationsStepExactly`, and the methods that
update an object branch by branch as their step function does: those of `PackageEngine.CapabilityPackageRegistry`
(crates/capabilities/src/ecosystem.rs:464-591), `SessionEngine.InMemoryCommunicationFabric`
(crates/communication/src/lib.rs:660-985), `ApprovalEngine.InMemoryApprovalBroker` (crates/approval/src/lib.rs:119-252)
and, apart from the loops listed below, `PluginEngine.LocalPluginRegistry` (crates/capabilities/src/plugin.rs:399-856).
They tie the objects to the functions that the results are about.

## Model

| member | source | states |
|---|---|---|
| `RouteGraph.ValidateRoute` | crates/coordination/src/lib.rs:973-1026 | The admission check accepts exactly the routes whose ids are unique and non-blank, whose edges join listed nodes and whose edge relation has no cycle; otherwise it names the first rule broken |
| `RouteGraph.DrainQueue` | crates/coordination/src/lib.rs:1006-1024 | Kahn's loop ends having listed every id exactly when no non-empty walk along the edges (repeated edges allowed) returns to its start; no id is queued twice and no in-degree underflows |
| `RouteGraph.LowerTargets` | crates/coordination/src/lib.rs:1013-1020 | After the inner loop every in-degree counts exactly the in-edges whose source is still unfinished, and the queue holds exactly the ids that wait for nothing |
| `RouteGraph.CountInEdges` | crates/coordination/src/lib.rs:999-1005 | The in-degree map counts the in-edges of every node |
| `RouteGraph.InitialQueue` | crates/coordination/src/lib.rs:1006-1009 | The queue starts with each id of in-degree zero, once |
| `RouteGraph.LeftoversAreCyclic` | crates/coordination/src/lib.rs:1011-1024 | Ids that the queue never reaches contain a cycle |
| `RouteGraph.AcyclicHasMinimal` | crates/coordination/src/lib.rs:973-1026 | In an admitted route every non-empty set of nodes has one without a predecessor in the set |
| `RouteRuns.BudgetConserved` | crates/coordination/src/lib.rs:559-600 | In every reachable state what is left plus what running nodes hold is the parent budget, reservations are exactly the running nodes at their declared units, the saturating add never saturates, and an idle route has its whole budget back |
| `RouteRuns.WorkIsBounded` | crates/coordination/src/lib.rs:663-742 | However long a run is and however many retries it holds, at most three moves per allowed attempt succeed |
| `RouteRuns.StepDropsMeasure` | crates/coordination/src/lib.rs:663-742 | No call raises the work measure, and every call that moves a node lowers it |
| `RouteRuns.RunsAreBoundedAndHonest` | crates/coordination/src/lib.rs:663-785 | Attempts never pass max(1, max_attempts), results are held for exactly the Done nodes and keep their value for ever, and Completed means every node is Done or its failure is tolerated |
| `RouteRuns.ReachableKeeps` | crates/coordination/src/lib.rs:616-742 | Every state reachable from a new runtime satisfies the run invariant (ledger half and graph half) |
| `RouteInvariant.CancelBalances` | crates/coordination/src/lib.rs:803-817 | Cancelling returns the whole parent budget |
| `RouteInvariant.FailKeepsGraph` | crates/coordination/src/lib.rs:688-709 | A failure, by whichever policy branch, keeps the graph half of the invariant, with Failed and Cancelled statuses accounted for |
| `RouteInvariant.CompleteKeepsGraph` | crates/coordination/src/lib.rs:677-686 | A completion keeps the graph half of the invariant, and sets Completed only when every node is settled |
| `RouteInvariant.StartKeepsLedger` | crates/coordination/src/lib.rs:663-675 | A start keeps budget conservation and the bound on attempts |
| `RouteInvariant.RetryKeepsLedger` | crates/coordination/src/lib.rs:711-737 | A retry keeps budget conservation and the bound on attempts |
| `RouteProgress.DeadlockFree` | crates/coordination/src/lib.rs:615-709 | In every state reached without retries, status Running implies that some node runs or is runnable |
| `RouteProgress.NeverHaltsExactly` | crates/coordination/src/lib.rs:615-709 | Without retries a route can never be left Running with nothing running and no start succeeding, whatever is called, exactly when every node declares a positive budget within the parent budget |
| `RouteProgress.StuckExactly` | crates/coordination/src/lib.rs:651-661 | A route that says it runs while nothing runs is stuck exactly when every pending node lies behind an in-edge that can never be satisfied |
| `RouteProgress.RunnableStartsExactly` | crates/coordination/src/lib.rs:663-675 | With nothing running, a runnable node starts exactly when its own budget is positive and within the parent budget |
| `RouteProgress.CompletableExactly` | crates/coordination/src/lib.rs:663-785 | A running route, however reached, can still be completed exactly when every node declares a positive budget within the parent budget and none of its nodes is Cancelled or OutcomeUnknown |
| `RouteProgress.RetryDeadlocksExactly` | crates/coordination/src/lib.rs:711-737 | A granted retry can lead, without further retries, to a route that says Running while nothing runs and no start succeeds, exactly when some node had been cancelled or declared unknown or some budget can never be afforded |
| `RouteProgress.RetryAfterAbortStrands` | crates/coordination/src/lib.rs:688-737 | A concrete route of two nodes that aborts, is retried, completes its only live node, and then says Running for ever |
| `RouteFailures.EndedRouteFinishesExactly` | crates/coordination/src/lib.rs:677-709 | A route whose status is Failed, Cancelled or ReplanRequested can still be completed without a retry exactly when some nodes run and all others are Done or failed tolerably |
| `RouteFailures.LastFailureDecides` | crates/coordination/src/lib.rs:677-709 | Of the last two running nodes, a tolerated failure of one before the completion of the other ends Completed, and after it ends Failed, with the same node states |
| `RouteStarts.DependenciesFinishFirst` | crates/coordination/src/lib.rs:663-769 | In every run without retries, both ends of every edge, whatever its failure policy, keep the order: a node that runs, is done or has failed depends on nodes that are done or have failed only |
| `RouteStarts.StartsExactly` | crates/coordination/src/lib.rs:568-675 | In every reachable state a start succeeds exactly when the route runs, the node is pending, every edge into it comes from a node that is done or, on a Continue edge, failed, and its budget is positive and within what running nodes leave of the parent budget |
| `RouteStarts.LeftIsNotHeld` | crates/coordination/src/lib.rs:559-600 | What is left of the parent budget is what the running nodes do not hold |
| `RouteOutcomes.CompletesExactly` | crates/coordination/src/lib.rs:677-785 | A completion succeeds exactly on a running node, keeps its result, hands its units back, and completes the route exactly when every node is then done or has failed with Continue edges only |
| `RouteOutcomes.FailsExactly` | crates/coordination/src/lib.rs:688-709 | A failure succeeds exactly on a running node; an AbortRoute edge fails the route and a Replan edge asks for a new plan, both cancelling all that is open, and otherwise the route goes on exactly while some other node may be started |
| `RouteOutcomes.BeginsAndCancelsExactly` | crates/coordination/src/lib.rs:616-817 | A new runtime waits in every node and is complete when empty; cancelling the parent cancels the route and exactly what is pending or running |
| `RouteOutcomes.RetriesExactly` | crates/coordination/src/lib.rs:711-737 | In every reachable state a retry is answered exactly on a failed node: its outcome is unknown when the effect may have happened, and otherwise it is granted exactly under an intent that the run has not tried for it and with fewer starts in the run than its policy allows |
| `RouteOutcomes.RunCounts` | crates/coordination/src/lib.rs:663-737 | The runtime remembers exactly the intents that were tried on failed nodes, and counts exactly the accepted starts |
| `RouteEngine.BudgetLedger.Reserve` | crates/coordination/src/lib.rs:568-584 | A reservation is granted exactly when it is positive, new and affordable, and a refused one changes nothing |
| `RouteEngine.BudgetLedger.Release` | crates/coordination/src/lib.rs:586-591 | Releasing removes the reservation and adds its amount back |
| `RouteEngine.RouteRuntime.Create` | crates/coordination/src/lib.rs:616-637 | A runtime exists exactly for admitted routes, in the initial state |
| `RouteEngine.RouteRuntime.Start` | crates/coordination/src/lib.rs:663-675 | Follows the start step of the run functions, errors included |
| `RouteEngine.RouteRuntime.Complete` | crates/coordination/src/lib.rs:677-686 | Follows the completion step |
| `RouteEngine.RouteRuntime.Fail` | crates/coordination/src/lib.rs:688-709 | Follows the failure step with its four outcomes |
| `RouteEngine.RouteRuntime.Retry` | crates/coordination/src/lib.rs:711-737 | Follows the retry step with its decisions |
| `RouteEngine.RouteRuntime.CancelUnfinished` | crates/coordination/src/lib.rs:803-817 | The loop of single releases and state changes does what cancelling all at once does |
| `RouteEngine.RouteRuntime.CancelParent` | crates/coordination/src/lib.rs:739-742 | Follows the cancellation step |
| `RouteEngine.RouteRuntime.AnyRunnable` | crates/coordination/src/lib.rs:651-661 | Finds a runnable node exactly when there is one |
| `CoordinationStrategy.AppliedRouteIsValid` | crates/coordination/src/m3_b.rs:160-231 | Any accepted route is turned into one that the admission check also accepts |
| `CoordinationStrategy.HeaviestNodesSurvive` | crates/coordination/src/m3_b.rs:192-213 | Exactly the allowed number of nodes survive, in their original order, and each outranks every dropped one |
| `CoordinationStrategy.EdgesBetweenSurvivorsSurvive` | crates/coordination/src/m3_b.rs:214-219 | An edge survives, as often as it was there and in its old order, exactly when both its ends do |
| `CoordinationStrategy.SelectionForgetsOrder` | crates/coordination/src/m3_b.rs:192-206 | Which nodes survive does not depend on the order in which the route lists them |
| `CoordinationStrategy.AppliesExactly` | crates/coordination/src/m3_b.rs:160-231 | A strategy applies exactly when it is valid, names the pattern of the route and lists the role of every node; nothing but nodes and edges of the route changes |
| `CoordinationStrategy.SurvivesExactly` | crates/coordination/src/m3_b.rs:189-213 | A node survives exactly when fewer nodes than allowed (one in single mode, else the greatest number of subagents) have a heavier role, or an equally heavy one and a lesser id |
| `DependencyClosure.AcceptedClosureIsSound` | crates/capabilities/src/ecosystem.rs:224-316 | An accepted closure is admitted with matching package and digest all the way down, acyclic, free of the root release, and every release in it is at the end of some path within the depth limit |
| `DependencyClosure.SoundShallowClosureIsAccepted` | crates/capabilities/src/ecosystem.rs:224-316 | A closure that passes the prechecks, is structurally sound and has no path longer than the limit is accepted |
| `DependencyClosure.DeepLimitDecidesExactly` | crates/capabilities/src/ecosystem.rs:224-316 | With a limit no smaller than the number of admissions the check decides structural soundness exactly |
| `DependencyArrangement.EveryArrangementPassesExactly` | crates/capabilities/src/ecosystem.rs:224-316 | A closure that passes the prechecks and is structurally sound is accepted in every arrangement of its dependency lists exactly when every path fits the limit |
| `DependencyArrangement.LongPathFirstIsRefused` | crates/capabilities/src/ecosystem.rs:284-316 | Listing a path longer than the limit first, in every list it goes through, gets a sound closure refused |
| `DependencyArrangement.DependenciesFirstIsAccepted` | crates/capabilities/src/ecosystem.rs:284-292 | When no release is declared twice, declaring dependencies before dependents gets a sound closure accepted at any limit from two on, however long its paths |
| `DependencyArrangement.ArrangementDecidesExactly` | crates/capabilities/src/ecosystem.rs:224-316 | For a sound closure that declares no release twice the order of the lists decides the verdict exactly when the limit is at least two and some path is longer |
| `DependencyArrangement.SmallLimitBoundsEveryPath` | crates/capabilities/src/ecosystem.rs:284-316 | At a limit of zero or one an accepted closure has no path longer than the limit |
| `DependencyArrangement.PrecheckExactly` | crates/capabilities/src/ecosystem.rs:224-256 | What precedes the search passes exactly when neither list is longer than the policy allows, no release is admitted twice, every declared dependency is admitted, well formed, under its package and digest, and there are as many admissions as declarations |
| `DependencyArrangement.PrecheckRefusalsAreHonest` | crates/capabilities/src/ecosystem.rs:229-256 | A refusal before the search names a reason that is really there |
| `DependencyClosure.SearchRefusalsAreHonest` | crates/capabilities/src/ecosystem.rs:258-316 | A closure refused by the search has a path from a declared dependency that is at fault as the error says: too long, at the root or back on itself; short of an admission; or bound to something else |
| `DependencyClosure.DeclarationOrderDecidesDepth` | crates/capabilities/src/ecosystem.rs:224-316 | Three packages in a row of dependencies, in lists sorted as the validation of manifests and admissions demands, pass all checks at a limit of two when their names put the leaf first and are refused as too deep when they put it last |
| `DependencyClosure.CountCheckExcludesUndeclaredExactly` | crates/capabilities/src/ecosystem.rs:234-256 | The count comparison excludes undeclared admissions exactly when declared releases are distinct |
| `DependencyClosure.TwoVersionsHideAnUndeclaredAdmission` | crates/capabilities/src/ecosystem.rs:234-256 | Two declarations of one release that differ only in version let an undeclared admission through |
| `DependencyClosure.DependencyWalk.Depth` | crates/capabilities/src/ecosystem.rs:275-316 | The search over two sets kept in place follows the functional search and restores its stack |
| `DependencyClosure.CheckClosure` | crates/capabilities/src/ecosystem.rs:224-273 | The whole check computes the closure verdict, and acceptance implies structural soundness |
| `CapabilityIndex.ReplacedExactly` | crates/capabilities/src/registry.rs:107-159 | Replacing keeps every unmanaged entry and holds, for the managed sources, exactly what the replacement sources offer, all of which are managed |
| `CapabilityIndex.AddedExactly` | crates/capabilities/src/registry.rs:107-159 | Accepted additions hold exactly what was there and what was offered |
| `CapabilityIndex.ReplaceSucceedsExactly` | crates/capabilities/src/registry.rs:107-144 | A replacement is accepted exactly when every managed source is named, every source offered is complete and managed, and no descriptor of a source is offered twice |
| `CapabilityIndex.InMemoryCapabilityRegistry.ReplaceSources` | crates/capabilities/src/registry.rs:107-159 | Follows the replacement function; a refused call leaves the index as it was |
| `CapabilityIndex.InMemoryCapabilityRegistry.RemoveSource` | crates/capabilities/src/registry.rs:99-105 | Leaves exactly the entries of other sources |
| `CapabilityIndex.InMemoryCapabilityRegistry.IndexSource` | crates/capabilities/src/registry.rs:278-302 | Indexes a valid source over what was there; a refused source changes nothing |
| `PackageRegistry.CoherentRunsExactly` | crates/capabilities/src/ecosystem.rs:464-591 | Over every run the index holds, for ecosystem sources, exactly the entries of each package's active release, if and only if no two packages used share a source reference |
| `PackageRegistry.ColonFreeNamesAreSeparate` | crates/capabilities/src/ecosystem.rs:604-609 | Source references separate packages as soon as no package name holds a colon |
| `PackageRegistry.CollisionBreaksMirror` | crates/capabilities/src/ecosystem.rs:527-555 | Any two packages whose references collide break the mirror: enabling the second evicts the first, which stays listed as active |
| `PackageRegistry.ColonNamesCollide` | crates/capabilities/src/ecosystem.rs:604-609 | Package a at release b:c and package a:b at release c share a source reference, and enabling both leaves an index that does not mirror |
| `PackageRegistry.ActiveEntriesAreAnchored` | crates/capabilities/src/ecosystem.rs:527-581 | The active entry of every package names its own release, source and latest generation |
| `PackageRegistry.UnmanagedEntriesUntouched` | crates/capabilities/src/ecosystem.rs:527-591 | Nothing the package registry does touches entries of sources outside it |
| `PackageRegistry.ArchiveIsForever` | crates/capabilities/src/ecosystem.rs:464-479 | Archived content never changes |
| `PackageRegistry.GenerationsCountAcceptances` | crates/capabilities/src/ecosystem.rs:527-574 | Over every run the generation of a package is the one it started from plus the number of accepted enablings and disablings since, modulo 2^64 |
| `PackageRegistry.GenerationsAreNotReused` | crates/capabilities/src/ecosystem.rs:527-574 | No two accepted enablings or disablings of a package that lie fewer than 2^64 calls apart carry the same generation |
| `PackageRuns.EnableSucceedsExactly` | crates/capabilities/src/ecosystem.rs:491-555 | After any run, enabling succeeds exactly for a valid package that contributes named, different capabilities under a named scope, at a generation that is not zero and, once the package has one, is one above that of its last accepted enabling or disabling |
| `PackageRuns.DisableSucceedsExactly` | crates/capabilities/src/ecosystem.rs:557-591 | After any run, disabling succeeds exactly with the generation after that of the last accepted enabling or disabling, modulo 2^64; disabling and fencing report whether the package was active |
| `PackageRuns.ActiveExactly` | crates/capabilities/src/ecosystem.rs:527-591 | A package is active exactly when some call of the run enabled it and none since has enabled, disabled or fenced it; its entry names the release, source and generation of that call |
| `PackageRuns.GenerationIsTheLast` | crates/capabilities/src/ecosystem.rs:527-574 | A package has a generation once it was enabled: the one that its last accepted enabling or disabling named |
| `PackageRuns.IndexShowsExactly` | crates/capabilities/src/ecosystem.rs:491-591 | After any run over packages that share no source reference, the index holds for ecosystem sources exactly the contributions of the packages still enabled, each with its capability, kind, scope, permissions, risk and trust |
| `PackageRuns.StagesExactly` | crates/capabilities/src/ecosystem.rs:491-526 | A package is staged exactly when it is valid and contributes something, and then it offers exactly its contributions, field by field |
| `PackageRuns.ArchiveHoldsExactly` | crates/capabilities/src/ecosystem.rs:464-479 | The archive holds under each release exactly the first valid package archived under it |
| `PackageRuns.ArchiveAnswersExactly` | crates/capabilities/src/ecosystem.rs:464-479 | Archiving says that a package is new, or the same again, or refuses invalid packages and changed content |
| `ContextAssembly.BuildIsGreedy` | crates/context/src/lib.rs:272-496 | A successful build holds every rule within the count limit, first and in order, then, of what the other layers offer after their own filters and count limits, exactly what still fits; it records the rules over the limit and all that is offered and does not fit |
| `ContextAssembly.AssemblyIsGreedy` | crates/context/src/lib.rs:563-588 | Assembly keeps, in order, exactly what fits, never passes the budget, and never drops a required section |
| `ContextAssembly.EverythingFits` | crates/context/src/lib.rs:563-588 | If the total cost fits, the pass keeps every candidate or stops at a blank source |
| `ContextAssembly.SelectionWithinEstimate` | crates/context/src/lib.rs:609-659 | Whatever the limits select, filter, sort and truncate costs no more than the context estimate |
| `ContextAssembly.WithinEstimateBuildIsLossless` | crates/context/src/lib.rs:272-496 | When the estimate is within budget the build fails exactly on a blank source, and otherwise drops nothing for tokens |
| `ContextAssembly.NextBuildIsLossless` | crates/context/src/lib.rs:787-827 | After an accepted compaction call, the next build with the same budget excludes no section for tokens and never fails the required-rule check |
| `ContextContents.RulesAreOffered` | crates/context/src/lib.rs:294-315 | The rules within the count limit are offered, all of them in order and each as it is; those past it are recorded as excluded by the count |
| `ContextContents.WorkspaceIsOffered` | crates/context/src/lib.rs:317-338 | In a brain call the most valuable working items within the limit are offered, more urgent ones first among equals; in other calls none are |
| `ContextContents.ToolsAndSlicesAreOffered` | crates/context/src/lib.rs:433-471 | The first tools and slices within their limits are offered |
| `ContextContents.MemoryIsOffered` | crates/context/src/lib.rs:363-378 | The memory summary is offered unless it is blank |
| `ContextContents.HistoryIsOffered` | crates/context/src/lib.rs:340-361 | The newest history entries within the limit are offered, oldest of them first |
| `ContextContents.SkillsAreOffered` | crates/context/src/lib.rs:380-407 | The first skills within the limit whose scope covers that of the run are offered |
| `ContextContents.BodiesAreOffered` | crates/context/src/lib.rs:409-431 | The first loaded bodies within the limit are offered, of skills that the run selected |
| `ContextContents.LayersInOrder` | crates/context/src/lib.rs:317-471 | After the rules come working items, history, memory summary, skills, bodies, tools and slices, in this order |
| `CompactionContents.BuildSucceedsExactly` | crates/context/src/lib.rs:272-496 | A build succeeds exactly on valid inputs whose offered sources are named and whose offered rules fit the budget |
| `CompactionContents.CompactsExactly` | crates/context/src/lib.rs:787-867 | A call compacts exactly a valid context that has reached the threshold, when the run can be registered, the store delivers a plan and applying it relieves the context |
| `CompactionContents.IdlesExactly` | crates/context/src/lib.rs:787-800 | A call is accepted without doing anything exactly on a valid context that stays below the threshold |
| `CompactionContents.CompactionPreserves` | crates/context/src/lib.rs:828-867 | An accepted compaction leaves one history entry for each preserved event, in order, with its id and kind and with the provenance of the last earlier entry of that id or else of the summary, the new summary, no slices, and rules, tools, skills, bodies and workspace as they were; a call that compacts nothing changes nothing |
| `CompactionContents.NextBuildShowsPreserved` | crates/context/src/lib.rs:787-867 | A build after an accepted compaction shows the newest preserved events, as many as the history limit allows |
| `CompactionContents.CompactionRefusalsAreHonest` | crates/context/src/lib.rs:787-867 | A refused call says what is wrong with it |
| `ContextAssembly.Assembly.PushSection` | crates/context/src/lib.rs:563-588 | Follows the push function: a section is added, excluded or refused |
| `ContextAssembly.LayeredContextBuilder.Build` | crates/context/src/lib.rs:272-496 | Pushing layer after layer in place computes the build function |
| `ContextAssembly.RunContext.CompactIfNeeded` | crates/context/src/lib.rs:787-867 | Follows the compaction function, and rewrites the context only when the whole compaction succeeds |
| `Text.UnescapeUndoesEscape` | crates/cognition/src/temporal.rs:911-925 | Undoing the chain of replacements in reverse order restores every text, at every length of the chain |
| `Text.EscapedHasNoSeparator` | crates/cognition/src/temporal.rs:911-917 | Escaped text holds none of the separators |
| `Text.SplitUndoesJoin` | crates/cognition/src/temporal.rs:714-748 | Splitting undoes joining when no part holds the separator |
| `Decimal.I64TextReadsBack` | crates/cognition/src/temporal.rs:729-748 | Decimal text of a 64-bit integer is read back |
| `TemporalCodec.EvidenceReadsBack` | crates/cognition/src/temporal.rs:714-748 | Evidence lists of any length and content are read back, at schema version 1 |
| `TemporalCodec.FieldsReadBack` | crates/cognition/src/temporal.rs:844-852 | Fields joined behind a prefix are found again |
| `TemporalCodec.AgentSelfReadsBack` | crates/cognition/src/temporal.rs:750-781 | Parsing undoes encoding for every agent-self attribute, up to the normalisations |
| `TemporalCodec.PartnershipReadsBack` | crates/cognition/src/temporal.rs:783-816 | Parsing undoes encoding for every partnership state, up to the normalisations |
| `TemporalCodec.TrustReadsBack` | crates/cognition/src/temporal.rs:818-842 | Parsing undoes encoding for every trust profile, up to the normalisations |
| `TemporalCodec.RecordsSurviveExactly` | crates/cognition/src/temporal.rs:714-842 | A record comes back unchanged exactly when its evidence is at the current schema version, its gap is not an empty text and its complement list is not one empty text |
| `TemporalCodec.KindsDoNotMix` | crates/cognition/src/temporal.rs:764-842 | One kind of record is never read as another |
| `CodecForms.AgentSelfExactly` | crates/cognition/src/temporal.rs:764-781 | A text, whoever wrote it, is read as an agent-self attribute exactly when it has the eight fields behind its prefix and each is read as what the attribute says: only names of tiers, decimal confidences and readable evidence |
| `CodecForms.PartnershipExactly` | crates/cognition/src/temporal.rs:802-816 | A text is read as a partnership state exactly when it has the six fields behind its prefix, each read as what the state says |
| `CodecForms.TrustExactly` | crates/cognition/src/temporal.rs:830-842 | A text is read as a trust profile exactly when it has the six fields behind its prefix, each read as what the profile says |
| `CodecForms.EvidenceExactly` | crates/cognition/src/temporal.rs:729-748 | A text is read as evidence exactly when it is empty or its comma-separated items each end in a number and a flag behind a reference that may hold the field separator |
| `CodecForms.EscapesEachExactly` | crates/cognition/src/temporal.rs:911-917 | Escaping writes each character on its own, the four special ones as their codes and all others as they are, whatever surrounds it |
| `CodecForms.NumbersExactly` | crates/cognition/src/temporal.rs:729-748 | A 64-bit number is read exactly from its digits behind a sign or none |
| `CodecForms.NumbersAreWrittenExactly` | crates/cognition/src/temporal.rs:714-727 | A number is written in digits without a leading zero, behind a minus sign exactly when it is negative |
| `Retraction.TransitiveDerived` | crates/cognition/src/lib.rs:1658-1673 | The worklist loop returns, without duplicates, exactly the objects other than the source that lineage edges lead to, cycles included |
| `Retraction.EdgeReadsBack` | crates/cognition/src/lib.rs:2231-2246 | A lineage edge read from the log is the edge written, whatever the names hold |
| `Retraction.RetractionClosesOverLineage` | crates/cognition/src/lib.rs:1913-1984 | After a recorded retraction its target and everything then derived from it stay unusable, whatever follows |
| `Retraction.RetractionStaysClosedExactly` | crates/cognition/src/lib.rs:1541-1984 | Throughout a run of edges, retractions, audits, promotions and downgrades everything that retracted objects lead to is retracted or invalidated exactly when no recorded edge ties something neither retracted nor invalidated to an object that a retracted one leads to |
| `Retraction.ExcludedExactly` | crates/cognition/src/lib.rs:1541-1624 | An object of a non-blank name is retracted or invalidated exactly when it is unusable after every continuation |
| `RetractionRuns.UsableExactly` | crates/cognition/src/lib.rs:1541-1984 | In every run an object may be used exactly when no accepted retraction named it, none derived it and no completed audit failed it, and, if it was ever promoted, nothing has downgraded it since its last promotion |
| `RetractionRuns.LineageExactly` | crates/cognition/src/lib.rs:1577-1610 | The lineage holds exactly the edges between different, named objects whose recording the store took |
| `RetractionRuns.InvalidatedExactly` | crates/cognition/src/lib.rs:1913-1984 | Invalidated is exactly what an accepted retraction listed as derived and what a completed audit of an active object failed |
| `RetractionRuns.ActiveExactly` | crates/cognition/src/lib.rs:1541-1575 | An object is known exactly when it was promoted, and active exactly when nothing has downgraded, retracted or invalidated it since a promotion |
| `RetractionRuns.LogGrowsExactly` | crates/cognition/src/lib.rs:1577-1984 | A call appends exactly its own event and, if the store takes it, the task that follows; a refused or failed call appends nothing |
| `Retraction.DowngradedTargetComesBack` | crates/cognition/src/lib.rs:1541-1610 | A concrete run: an object downgraded when an edge from a retracted one to it is recorded is unusable then, and usable again after its next promotion |
| `Retraction.LateEdgeLeavesTargetUsable` | crates/cognition/src/lib.rs:1577-1610 | An edge recorded after the retraction of its source leaves its target usable |
| `Retraction.NewEdgeExactly` | crates/cognition/src/lib.rs:1577-1610 | A new lineage edge adds exactly the connections from what leads to its source to what its target leads to |
| `Retraction.RetractionExcludesNothingElse` | crates/cognition/src/lib.rs:1913-1984 | A retraction makes nothing else unusable |
| `Retraction.RunStaysInSyncExactly` | crates/cognition/src/lib.rs:1577-1984 | The log and the live state stay in step throughout a run exactly when every follow-up append of the run succeeded or had nothing to add |
| `Retraction.StepStaysInSyncExactly` | crates/cognition/src/lib.rs:1577-1984 | A call keeps the log and the live state in step exactly when its follow-up appends succeeded or had nothing to add |
| `Retraction.ReplayRebuildsLiveState` | crates/cognition/src/lib.rs:2059-2122 | When every append succeeds, folding the log rebuilds the same lineage, retracted and invalidated sets |
| `Retraction.ReplayNeverLosesRetractions` | crates/cognition/src/lib.rs:2059-2122 | Even when appends fail, a replay rebuilds the live lineage and the live retractions |
| `Retraction.FailedTaskAppendIsForgotten` | crates/cognition/src/lib.rs:1913-1984 | A concrete run: the worklist lists the derived object, the follow-up append fails, and a replay would admit again what the live state excludes |
| `Retraction.CognitiveRuntime.RecordLineage` | crates/cognition/src/lib.rs:1577-1610 | Follows the lineage step |
| `Retraction.CognitiveRuntime.OnRetraction` | crates/cognition/src/lib.rs:1913-1984 | Lists exactly what is derived and follows the retraction step |
| `Retraction.CognitiveRuntime.IsUsable` | crates/cognition/src/lib.rs:1612-1624 | An object is usable exactly when it is not retracted, not invalidated and not inactive |
| `ManagedPlugins.ManagedPolicyLocksIn` | crates/capabilities/src/plugin.rs:415-856 | Once a managed policy is committed, every later state is under that policy at no lower a version, and each active snapshot carries a managed snapshot of exactly that policy and version for an allowed plugin whose manifest is the bound one |
| `ManagedPlugins.UnmanagedCommitsAreRefused` | crates/capabilities/src/plugin.rs:415-571 | Under a managed policy neither unmanaged activation nor unmanaged reload commits anything; at most a last failure is noted |
| `ManagedPlugins.BuiltExactly` | crates/capabilities/src/plugin.rs:656-698 | A managed build holds exactly the resolved plugins that are allowed, not denied, bound and permitted |
| `ManagedPlugins.InstalledExactly` | crates/capabilities/src/plugin.rs:719-856 | A completed installation leaves active exactly what was active before and what was installed |
| `ManagedPlugins.ManagedActivationIsExact` | crates/capabilities/src/plugin.rs:425-435 | An accepted managed activation leaves active exactly the eligible plugins |
| `ManagedPlugins.ManagedCommitKeeps` | crates/capabilities/src/plugin.rs:719-856 | A managed commit keeps the registry invariant; a refused one keeps the policy |
| `PluginRuns.ActiveExactly` | crates/capabilities/src/plugin.rs:399-856 | A plugin is active after a run exactly when some accepted commit of the run installed it and nothing since has disabled it, marked it failed or committed without it |
| `PluginRuns.StoppedAreNeverActive` | crates/capabilities/src/plugin.rs:399-856 | In no run is a plugin active whose status is disabled or failed |
| `PluginRuns.OthersExactly` | crates/capabilities/src/plugin.rs:346-598 | An accepted disabling or failure takes exactly that plugin out of what is active; configuring, enabling, trusting and granting change nothing active |
| `PluginRuns.CommitsExactly` | crates/capabilities/src/plugin.rs:415-856 | A commit goes through exactly when nothing stands in its way; then exactly what it was to install is active, as the plugin meant, bound as the policy demands and under the new generation; otherwise nothing active changes, and only an invalid managed snapshot uses up a generation |
| `PluginRuns.DiscoversExactly` | crates/capabilities/src/plugin.rs:304-344 | A new registry knows each listed id by the last plugin listed under it, discovered, at generation 0 and without a failure, with nothing active and no policy |
| `PluginRuns.InstallStopsAt` | crates/capabilities/src/plugin.rs:808-820 | Installing stops at the first snapshot without a status, after those before it and with its plugin already replaced |
| `PluginRuns.BuildsManagedExactly` | crates/capabilities/src/plugin.rs:656-698 | A managed build succeeds exactly when none of the resolved ids that the policy allows is unknown, unbound, refused by the verifier or impossible to stage |
| `PluginRuns.BuildsExactly` | crates/capabilities/src/plugin.rs:634-654 | An unmanaged build succeeds exactly when every resolved id is known and can be staged |
| `PluginEngine.LocalPluginRegistry.BuildSnapshots` | crates/capabilities/src/plugin.rs:634-654 | The loop over resolved providers computes the unmanaged build, first error included |
| `PluginEngine.LocalPluginRegistry.BuildManagedSnapshots` | crates/capabilities/src/plugin.rs:656-698 | The loop over resolved providers computes the managed build, with its skips and its first error |
| `PluginEngine.LocalPluginRegistry.Install` | crates/capabilities/src/plugin.rs:808-840 | Follows the installation function, which stops half-way at a plugin without a status |
| `Attention.LedgerRefinesHistory` | crates/cognition/src/lib.rs:792-822 | Popping expired fronts answers every request as counting the whole history would |
| `Attention.WindowsAreBounded` | crates/cognition/src/lib.rs:792-822 | No half-open interval of the window's length, anywhere in the history, holds more grants than allowed |
| `Attention.BoundHoldsExactly` | crates/cognition/src/lib.rs:792-822 | With a clock that never runs backwards and never passes a limit, the bound holds for every run exactly when the limit is before the last 64-bit instant, or no interruption is allowed, or the window is empty |
| `Attention.AnyClockBoundHoldsExactly` | crates/cognition/src/lib.rs:792-822 | With a clock that may run backwards and never passes a limit, the bound holds for every run exactly when no interruption is allowed, or the window is empty, or the limit is before the last 64-bit instant and either a single interruption is allowed or the window is too long for any grant to expire by the limit |
| `Attention.AnswersExactly` | crates/cognition/src/lib.rs:792-822 | While the clock does not run backwards and stays below the last instant, every answer of a run is the one the policy gives: what does not ask to interrupt is passed through, quiet hours hold back what is not urgent, and an interruption is granted exactly while the window behind it holds fewer grants than allowed |
| `Attention.ContainsExactly` | crates/cognition/src/lib.rs:745-755 | A daily window, overnight ones included, contains an instant exactly when one of its occurrences does |
| `Attention.RewindBreaksBound` | crates/cognition/src/lib.rs:792-822 | For every policy with two or more interruptions and a positive window: as many grants as allowed, one a window later that empties the ledger, and one more at the first time, break the bound |
| `Attention.AttentionLedger.Delivery` | crates/cognition/src/lib.rs:792-822 | Follows the delivery step, popping in place |
| `Sessions.CountersAreHonest` | crates/communication/src/lib.rs:666-862 | The counters of every session show what the run really used, up to saturation of their types |
| `Sessions.OpenSessionsStayWithinLimits` | crates/communication/src/lib.rs:666-862 | The counters of an open session are within its limits, and so is what it really used wherever the limit is below the greatest number of its type |
| `Sessions.TokensOverrunExactly` | crates/communication/src/lib.rs:666-862 | A session can be left open having used more tokens than its limit exactly when that limit is the greatest 64-bit number and the other limits leave room for two charges |
| `Sessions.MessagesOverrunExactly` | crates/communication/src/lib.rs:666-862 | A session can be left open having passed more messages than its limit exactly when that limit is the greatest 32-bit number and at least 2^31 rounds are allowed |
| `Sessions.RoundsOverrunExactly` | crates/communication/src/lib.rs:666-862 | A session can be left open having run more rounds than its limit exactly when both 32-bit limits are the greatest there is |
| `Sessions.TerminatedIsFinal` | crates/communication/src/lib.rs:666-986 | Nothing changes a terminated session any more |
| `Sessions.HistoryIsExact` | crates/communication/src/lib.rs:666-986 | The full history holds one opening per session, one ending per terminated session and none per open one, and one decision per consumed (session, request) pair |
| `Sessions.DecidedExactly` | crates/communication/src/lib.rs:716-965 | A (session, request) pair is decided exactly when an operation may decide it and none has before, across deliveries and disclosures |
| `SessionRuns.DecisionsAreJudged` | crates/communication/src/lib.rs:716-1045 | Whatever decision a run logs is the one its session's policy has: approval for unconfirmed requests of high impact and wherever a rule or the policy demands it, refusal for a category that no rule covers, otherwise the first rule of the category or of all, blurred instead of answered when the request is sensitive |
| `SessionRuns.EveryAnswerIsRight` | crates/communication/src/lib.rs:666-986 | Every call of every run, openings, exchanges, deliveries, disclosures and terminations, is answered and recorded as its grant, its policy and the history of the run demand |
| `SessionRuns.JudgementIsUnique` | crates/communication/src/lib.rs:1010-1045 | The policy leaves exactly one decision for a request |
| `SessionRuns.BoundaryIsFirst` | crates/communication/src/lib.rs:673-700 | Of several boundaries crossed at once the first in the order rounds, messages or tokens, drift, risk ends the session, counted over what was really used; a limit at the top of its type is never crossed |
| `Approvals.AuthorizedExactly` | crates/approval/src/lib.rs:119-178 | An authorization succeeds exactly when the run holds an earlier accepted request, later resolved by a grant for it, both covering the action and unexpired, and never used if one-shot |
| `Approvals.IdsAreRequestedOnce` | crates/approval/src/lib.rs:194-215 | An id is requested at most once in a run |
| `Approvals.ResolutionsAreUnique` | crates/approval/src/lib.rs:217-252 | An id is resolved at most once and no nonce is used twice |
| `Approvals.OneShotAuthorizesOnce` | crates/approval/src/lib.rs:161-178 | A one-shot grant authorizes at most one action in a run |
| `Approvals.ResolutionStays` | crates/approval/src/lib.rs:217-252 | A grant once in force stays in force, unchanged but for its consumption |
| `Approvals.RunKeeps` | crates/approval/src/lib.rs:119-252 | Pending and active ids stay disjoint and known, and every grant in force is bound to its own request |
| `Approvals.FailuresChangeNothing` | crates/approval/src/lib.rs:119-252 | A failed call leaves the broker as it was |
| `Approvals.AskSucceedsExactly` | crates/approval/src/lib.rs:194-215 | In every run a request is accepted exactly when it is complete, its expiry lies after the clock, and no earlier accepted request has its id |
| `Approvals.ResolveSucceedsExactly` | crates/approval/src/lib.rs:217-252 | In every run a resolution is accepted exactly when an accepted request of that id is unresolved and unexpired, the grant names its id, digest and versions and a non-blank approver, is to be used after the clock and not past the expiry, and has a non-blank nonce that the run has not used |
| `Approvals.RefusalsAreHonest` | crates/approval/src/lib.rs:119-252 | In every run the reason given for a refusal holds of the refused call |
| `ResourceGraph.RebuildForgetsOrder` | crates/coordination/src/m2_c.rs:9-270 | Rebuilding from any permutation of events told apart by run, sequence and id gives the same answer |
| `ResourceGraph.FoldKeeps` | crates/coordination/src/m2_c.rs:47-250 | At every point of the fold latest resources and edge endpoints name existing nodes, and evidence lists are duplicate-free and within the snapshot's evidence |
| `ResourceGraph.UnavailableExactly` | crates/coordination/src/m2_c.rs:238-248 | A node is unavailable exactly when a trusted event revoked its resource after the node had appeared: nothing restores it, and an earlier revocation has no effect |
| `ResourceGraph.VersionsExactly` | crates/coordination/src/m2_c.rs:48-51 | Every run has as version the highest sequence number among its events |
| `ResourceGraph.RebuildSucceedsExactly` | crates/coordination/src/m2_c.rs:9-270 | A rebuild succeeds exactly on a complete request over store-sequenced events of named runs, and its snapshot is consistent |
| `ResourceRuns.CountsExactly` | crates/coordination/src/m2_c.rs:202-248 | A node's three counts are, modulo 2^32, what the log counts for it: reports that name it, verifications while it is its run's latest resource, and a failure once for every time it is named or, when nothing named is known, against the latest resource |
| `ResourceRuns.NodesExactly` | crates/coordination/src/m2_c.rs:53-236 | The nodes are exactly those that some event brought, a capability standing for the first kind that knew its name |
| `ResourceRuns.EdgesExactly` | crates/coordination/src/m2_c.rs:129-196 | The edges are exactly those that some event drew: from each listed source to the capability, and from its run's latest resource to the planned backend |
| `ResourceRuns.LatestExactly` | crates/coordination/src/m2_c.rs:53-236 | A run's latest resource is what the last of its events that leaves one left |
| `ResourceRuns.CitationsExactly` | crates/coordination/src/m2_c.rs:286-379 | A node cites exactly the events that brought, scored or revoked it |
| `ResourceRuns.RecencyExactly` | crates/coordination/src/m2_c.rs:286-379 | A node keeps the scope it was first brought under, and is as recent as the latest of that event and those that scored or revoked it |
| `ResourceRuns.EvidenceExactly` | crates/coordination/src/m2_c.rs:53-250 | The snapshot's evidence names exactly the events that were recorded: reports only when trusted, and a verification only once its run has used something |
| `ResourceRuns.NodeFollowsEvent` | crates/coordination/src/m2_c.rs:53-379 | One event leaves every node as it says: brought or cited, its counts raised, as recent as the event once scored or revoked |
| `ResourceGraphEngine.ResourceGraphProjector.Rebuild` | crates/coordination/src/m2_c.rs:9-270 | One pass over the sorted events computes the rebuild function |
| `ResourceGraphEngine.ResourceGraphProjector.Project` | crates/coordination/src/m2_c.rs:47-250 | One event updates the maps in place as the fold does, and no lookup that must succeed can fail |
| `ResourceGraphEngine.ResourceGraphProjector.EnsureNode` | crates/coordination/src/m2_c.rs:286-311 | Follows the node function |
| `ResourceGraphEngine.ResourceGraphProjector.AddEdge` | crates/coordination/src/m2_c.rs:313-343 | Follows the edge function |
| `ResourceGraphEngine.ResourceGraphProjector.ApplyOutcome` | crates/coordination/src/m2_c.rs:360-373 | Follows the scoring function for a node that exists |
| `Ranking.RankedByRank` | crates/capabilities/src/m3_b.rs:164-277 | The candidate at place i is beaten by exactly i eligible others, and an eligible candidate is left out only when the limit's worth of others beat it |
| `Ranking.PrefilteredIsSound` | crates/capabilities/src/m3_b.rs:88-113 | A prefiltered set holds permitted candidates only, each reference once, and misses no permitted reference |
| `Ranking.SelectionForgetsOrder` | crates/capabilities/src/m3_b.rs:88-277 | Prefiltering and ranking candidates of different references gives the same list and the same evidence in whatever order they come |
| `Ranking.VerifiedMapHolds` | crates/capabilities/src/m3_b.rs:222-271 | What a ranking records of a listed candidate is all the verified evidence on it, and nothing of others |
| `RankingScores.ScoreIsWeighed` | crates/capabilities/src/m3_b.rs:180-221 | A score is the sum over the policy's weights, each times what its feature is worth: verified successes, compatibility and verified evidence for the candidate, failures, cost and latency (at most 10 000 each) against it, with every count taken from the places of the evidence |
| `RankingScores.ListedExactly` | crates/capabilities/src/m3_b.rs:164-277 | A candidate is listed exactly when it has a verified success, or need not, and fewer eligible ones than the limit come before it by points, tie-breaker and reference; its place is their number |
| `RankingScores.DeclarationsDoNotCount` | crates/capabilities/src/m3_b.rs:180-221 | Evidence that is not verified, or on another capability, never changes how a candidate stands |
| `RankingScores.WordsDecide` | crates/capabilities/src/m3_b.rs:279-299 | Verification, success and failure are recognised by their words alone, in any case of the letters |
| `RankingScores.RanksExactly` | crates/capabilities/src/m3_b.rs:164-178 | A ranking succeeds exactly under a sensible policy, on versioned evidence, for candidates of its target |
| `RankingScores.PrefiltersExactly` | crates/capabilities/src/m3_b.rs:88-113 | Prefiltering fails exactly on an incomplete candidate, usable or not, and otherwise keeps the first usable candidate of each reference, in order |
| `RankingScores.RecordsExactly` | crates/capabilities/src/m3_b.rs:222-271 | What is recorded of a candidate is one text for each piece of verified evidence on it, in order |
| `Placement.ChosenExactly` | crates/coordination/src/m4.rs:24-101 | A successful selection chooses the eligible candidate of highest score and, among those, least name, with its own plan; it chooses none exactly when none is eligible |
| `Placement.SelectForgetsOrder` | crates/coordination/src/m4.rs:24-101 | The order of the candidates does not matter, not even for which error is reported |
| `Placement.DuplicatesAreFound` | crates/coordination/src/m4.rs:40-52 | Comparing neighbours after sorting finds a repeated peer exactly when there is one |
| `Placement.CollectReasons` | crates/coordination/src/m4.rs:104-157 | Collects the reasons in their order |
| `Placement.ReasonsExactly` | crates/coordination/src/m4.rs:104-157 | The reasons recorded against a candidate are exactly those that stand against it, each once and in order |
| `Placement.SelectsExactly` | crates/coordination/src/m4.rs:24-101 | A request is decided exactly when it is complete, its candidates are valid and of different peers, and the one that wins has a plan |
| `Placement.DecisionTracesExactly` | crates/coordination/src/m4.rs:40-101 | A decision traces every candidate once, in order of peers, with all that stands against it |
| `Replay.BuildersAgree` | crates/eval/src/m3_a.rs:388-596 | From the events of the requested runs, in any order, the loose builder makes the archive that the engine builds from the store, and fails exactly when the engine does |
| `Replay.PortableForgetsOrder` | crates/eval/src/m3_a.rs:388-435 | From the same events in another order the same archive is built, or none |
| `Replay.BuildSucceedsExactly` | crates/eval/src/m3_a.rs:511-596 | A store build succeeds exactly when the request is valid, each requested run has a stream of events of that run numbered from one without a gap and recordable, the streams hold exactly the requested events once each, and the digest does not tell the request version from the manifest version; its archive passes validation |
| `Replay.VersionOneBuildsExactly` | crates/eval/src/m3_a.rs:437-596 | At schema version one the digest does not matter: a build succeeds exactly on complete requests |
| `Replay.VersionMismatchIsRefused` | crates/eval/src/m3_a.rs:437-464 | A complete request whose build fails has another schema version than one, and the builder rejects the archive it has just made |
| `Replay.SecondVersionIsRefused` | crates/eval/src/m3_a.rs:437-464 | A concrete request over one stored event: valid, built at schema version one, refused as an invalid archive at version two |
| `Replay.GatherAllExactly` | crates/eval/src/m3_a.rs:388-425 | Gathering succeeds exactly when each requested run has a non-empty stream of events of that run, numbered by their places, requested and recordable, and yields their records in order |
| `Replay.PortableSucceedsExactly` | crates/eval/src/m3_a.rs:388-464 | The loose build succeeds exactly under the same conditions on the sorted events of each run, when no event is of another run; its archive passes validation |
| `Replay.ArchiveFromExactly` | crates/eval/src/m3_a.rs:437-464 | Validation of a freshly made archive fails only for repeated event ids or a digest that tells the request's schema version from the manifest's |
| `Replay.BuiltHistoryIsFound` | crates/eval/src/m3_a.rs:511-570 | Collecting again what a built manifest names finds the archived records |
| `Replay.FoldsExactly` | crates/eval/src/m3_a.rs:1032-1107 | Folding a run fails exactly when it has no records or they are not numbered from one without a gap |
| `Replay.LastValueWins` | crates/eval/src/m3_a.rs:1071-1094 | A shown session field has the value that the last record to set it gives |
| `Replay.FieldSetExactly` | crates/eval/src/m3_a.rs:1071-1094 | A session field is shown exactly when some record sets it |
| `Replay.TranscriptIsExact` | crates/eval/src/m3_a.rs:1095-1104 | The transcript is the texts of the records that carry one, in order |
| `ReplayContents.BuildsWhatIsAsked` | crates/eval/src/m3_a.rs:437-596 | A store build makes exactly the archive asked for: the fields of the request, runs and cases in text order, one record with id, run, number, kept body and digest for each event of the runs, run after run, and the digest of it all |
| `ReplayContents.ValidExactly` | crates/eval/src/m3_a.rs:682-748 | An archive is valid exactly when its manifest is, its records are those the manifest lists, in order, each acceptable, under its digest and numbered from one within its run, its runs are those the manifest names, in text order, and the digest of the whole is right |
| `ReplayContents.RequestsExactly` | crates/protocol/src/m3_a.rs:306-325 | A request is valid exactly when it is versioned and named over a valid snapshot, names at least one run, event and case, none blank and none twice, and permits no live effects |
| `ReplayContents.RecordsExactly` | crates/eval/src/m3_a.rs:1147-1185 | An event is recorded exactly as its identity, what the codec keeps of its body, and the digest of both |
| `ReplayContents.StatusIsTheLast` | crates/eval/src/m3_a.rs:1071-1094 | The status shown is the last that a record gives, and the initial one when none does |
| `ReplayEngine.GatherRun` | crates/eval/src/m3_a.rs:523-553 | The loop over one run's events computes the gathering function, first error included |
| `ReplayEngine.FoldRun` | crates/eval/src/m3_a.rs:1032-1107 | The loop over one run's records computes the fold |
| `ReplayEngine.DeterministicReplayEngine.Build` | crates/eval/src/m3_a.rs:574-596 | A bundle name keeps the archive first built under it; other content is refused |
| `ReplayEngine.DeterministicReplayEngine.Exact` | crates/eval/src/m3_a.rs:598-627 | An exact replay succeeds exactly while the store still holds what was archived under that manifest |

## Left out

- Events that the components push for others to drain, and draining them: only the communication fabric's history is modelled, because statements about it are made.
- Locks and thread interleaving: each method runs under its lock and is one atomic step here.
- Cryptography, digests and serialisation: digests and signature verdicts are parameters, and nothing assumes that different contents have different digests.
- The validation methods of protocol types: their verdicts are fields such as `wellFormed`, except where a result depends on what they check (replay requests, selection strategies).
- The event store and the memory crate: appends succeed or fail as a parameter says, and a store is a map from runs to streams in sequence order.
- The provider registry: what it resolves is a parameter, restricted in run statements to plugins that were discovered, as its constructor registers no others.
- The contents of the capability and hook registries during plugin commits: whether they accept a replacement is a parameter.
- Staging a plugin's contributions (`stage_plugin`): the set of plugins whose staging succeeds is a parameter.
- Reading a node's budget text: the outcome is part of the node.
- Confidence arithmetic: a confidence is its decimal text, over the alphabet that the standard formatter writes.
- EstimateContext: an unbounded sum, as is the running cost of a build; what the 64-bit sums of the source do past 2^64 tokens (wrap, or stop at the greatest number) is not modelled.
- CoherentRunsExactly: assumes that whatever else writes to the shared index leaves sources whose references start with `ecosystem:` alone, which the index itself does not enforce.
- ListOrder: a dependency's schema version, which comes first in the order of dependency lists, is not modelled, so lists of equal schema versions are meant.
- Rendering a context to text and classifying content as instruction or data: fixed case distinctions.
- Resolving toolsets from the capability index, search ranking, scoped evidence: pipelines without lasting state.
- The proposal and governance side of cognition: granted promotions and downgrades are operations, without the rules that grant them; a reopened runtime starts without the stable objects that its log would bring back, and replay statements concern the lineage, retracted and invalidated sets.
- The `pending` listing of the approval broker and the text of error messages.
- Reading evidence outcomes in the resource graph and the state words of sessions: an outcome is passed, failed or unverifiable, and status words stay text.
- Argument matchers of approvals: a matcher is known by name, and an intent lists the matchers that accept it.
- Overflow of a session-opening counter after 2^64 sessions: session statements require runs shorter than that.
- The report of an exact replay: only when it succeeds and how many events it counts.
- Strategy fitness comparison, evolution verdicts, configuration doctors, transports, drivers, gateway and command lines: settled by reading their branches, or input and output.
