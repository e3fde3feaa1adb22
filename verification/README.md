# Verified model of the platform's ordering, wiring, audit and record-keeping cores

This project models, in Dafny, the parts of the trading platform whose behaviour spans many steps or many
components, and proves what each of them promises over every input and every run.

- **Component planner and bootstrap** (`Planner`, `Bootstrap`, with `Orders` for string order and stable sorting).
  `app/planner.py` orders a component manifest with Kahn's algorithm over a queue keyed by `(-priority, id)`;
  `app/bootstrap.py` and `app/preflight.py` carry that order into registration, preflight and the start/stop plan.
  The specification of a plan (least topological order, first failing check) never mentions the algorithm.
- **Dependency container** (`Container`, `ContainerResolution`, `ContainerInjection`, `ContainerRuns`,
  `ContainerAliases`).
  `core/container.py` resolves constructor dependencies recursively with a `_resolving` set and a singleton cache.
  The classes are proved against functions on a `Store`; success is then characterised on the dependency graph, and
  the singleton guarantees hold over arbitrary runs of register, resolve, create and reset.
- **Audit harness** (`Walker`, `Trace`, `Gate`, `ImplicitDispatch`, `Patches`). The static walker with its visited set
  and work budget, the node worklist, the counts, the gate's exit code, the static model of attribute lookup compared
  with a dynamic semantics (Python 3.12 Language Reference, section 3.3.2.3, "Invoking Descriptors"), and the
  save/patch/restore stack of the runtime denial.
- **Backtest run loop** (`Backtest`, `BacktestSteps`): replay with cancellation, windowing and accumulators over engines
  that are arbitrary deterministic transitions, and each step read off their answers.
- **Event bus** (`Events`, in `EventBus.dfy`): handler lists and cancellable tokens.
- **Record pipelines** (`Learning`, `LearningManager`, `LearningFigures`, `Ranking`, `RankedRecords`, `RankedFigures`):
  records whose counters, evaluations and metrics must agree with an append-only history. `memory/*` and `dashboard/*`
  are the same pipeline with opposite ranking, so one model with a `Pipeline` parameter covers both.
- **Market-data cache** (`MarketData`): the latest-snapshot cache and the events published about it.

Objects whose methods update fields are classes (`ServiceRegistry`, `ServiceContainer`, `StaticWalker`, `EventBus`,
`Subscription`, `Namespace`, `Cache`, `PipelineService`, the registries and managers). Each method's contract equates
its result and new state with a function of the old state; the theorems are lemmas about those functions, so they
speak about runs of the class. What such a function computes is in turn stated by a lemma on the raw fields of the
inputs, without naming the function's own helpers.

## Where the code differs from what it says

These are proved with a concrete witness and, where the property can be rescued, with the exact condition.

- An alias key does not always return its target's object: re-registering the target leaves a cached alias answering
  with the old one. For every kind of target the exact condition is stated on the registrations and the cache, and for a
  constructed singleton on what happened since the alias was built (`AliasFollowsTargetExactly`,
  `ReRegisteringLeavesAliasStale`).
- On the class path the descriptor verdicts are exact except for two shapes: a metaclass data descriptor without
  `__get__` in front of a class attribute that has one, and a `property` with a getter read through its owner class
  (reported as running the getter, while `property.__get__(None, C)` returns the property itself)
  (`ClassOutcomeExactly`, `InexactShapesExist`).
- Restoring a patched attribute that was inherited, not the object's own, leaves a copy of it on the object. The store
  is exactly restored if and only if, in the store on entry, every target before the first unpatchable one is an own
  attribute (`RestoredExactlyWhenOwn`, `InheritedLeavesCopy`).
- After `clear`, a token handed out before it can cancel a later subscription of the same handler
  (`StaleTokenCancelsSuccessor`), so a handler may be listed less often than it is actively subscribed. The counts agree
  if and only if at some moment since the last `clear` (or since the start) that handler had no active subscription to
  that type (`CompleteExactlyWhenCaughtUp`, `DeliveredOncePerSubscription`).
- A learning record placed in the registry in state CREATED would be taken to EVALUATED, which the transition table
  forbids. For any registry and input the write is legal if and only if the update cancels or the record is not in that
  state; records that the manager itself creates never are (`WriteLegalExactly`, `CreatedRecordBreaksTable`).

## Model

| member | source | states |
|---|---|---|
| Planner.Validate | app/planner.py:63-94 | accepts exactly the manifests with known, unique ids, resolvable references and no self edge; otherwise names the first check, in the documented order, that fails |
| Planner.HeapPop | app/planner.py:115 | removes exactly the entry with the smallest (-priority, id), leaving every other one |
| Planner.CountDegrees | app/planner.py:96-103 | in-degrees count repeated edges; each component lists its dependents once per edge |
| Planner.InitialQueue | app/planner.py:105-111 | the queue starts with exactly the components that depend on nothing, each once |
| Planner.Release | app/planner.py:117-122 | after placing a component the live degrees are those of the unplaced dependencies, and the queue holds exactly the ready components without repetition |
| Planner.TopologicalOrder | app/planner.py:113-122 | stops only when nothing is ready, having placed distinct components, each the head of the queue at its turn |
| Planner.Plan | app/planner.py:60-137 | fails with the first failing check, or with a cycle error exactly on cyclic graphs; otherwise returns the least topological order, one entry per component with its own priority and service keys and its sorted dependencies, repeats included |
| Planner.MakeEntries | app/planner.py:127-136 | entry i carries the i-th component placed unchanged, and its dependency list sorted, repeats included |
| Planner.GreedyIsTopological | app/planner.py:113-122 | always popping a ready component yields a permutation with every dependency strictly earlier |
| Planner.GreedyIsLeast | app/planner.py:105-122 | always popping the head of the queue yields the lexicographically least of all topological orders |
| Planner.CycleExcludesOrder | app/planner.py:124-125 | a manifest with a cycle has no topological order at all |
| Planner.StalledHasCycle | app/planner.py:124-125 | from any chain of unplaced components in a stalled queue, a concrete cycle among the unplaced is found |
| Planner.StalledQueueMeansCycle | app/planner.py:124-125 | if the queue runs dry early, there is a cycle made of unplaced components |
| Planner.CompleteOrderIsLeast | app/planner.py:113-125 | if everything was placed, the order is topological and least and the graph is acyclic |
| Planner.PendingZero | app/planner.py:105-110 | a live in-degree is zero exactly when every dependency of the component is placed |
| Planner.PendingRelease | app/planner.py:117-119 | placing a component lowers each dependent's degree once per edge, repeated edges included |
| Planner.FailsExactlyOnCycles | app/planner.py:91-125 | once the earlier checks pass, planning fails exactly when the graph has a cycle |
| Planner.LeastUnique | app/planner.py:105-122 | a manifest has only one least topological order |
| Planner.DeclarationOrderIrrelevant | app/planner.py:96-137 | manifests with the same components and dependency multiset, in any order, get the same verdict and the same plan |
| Planner.PlanDescribesManifest | app/planner.py:127-136 | every component of the manifest has one entry with its id, priority and service keys, positions count up, and dependency lists are sorted with the multiplicities of the manifest |
| Planner.EarlierOutranks | app/planner.py:105-122 | where a later component could already have gone, the one planned there has the higher priority, or the same priority and the smaller identifier |
| Planner.ErrorNamesFirstFailure | app/planner.py:63-125 | each error is witnessed in the manifest and means that every earlier check passed |
| Bootstrap.ValidateServiceKeys | app/preflight.py:44-51 | accepts exactly the plans all of whose declared keys are allow-listed |
| Bootstrap.PassedCountsAll | app/models.py:283-289 | no failed check is reported exactly when every entry resolved |
| Bootstrap.RunPreflight | app/preflight.py:81-105 | one entry per declared key in plan order, failures recorded and not raised, counts derived from the entries |
| Bootstrap.RunDryRunBootstrap | app/bootstrap.py:85-162 | stage by stage: which failure each stage yields, and how often the factory was called by then |
| Bootstrap.UseCandidate | app/bootstrap.py:112-162 | registration stops at the first failure; artifacts are built only if no check failed |
| Bootstrap.AnswersUnique | app/preflight.py:81-105 | a run has only one possible preflight transcript |
| Bootstrap.AllOrNothing | app/bootstrap.py:85-162 | the factory is called once exactly if planning and key checks pass, never otherwise; artifacts exist exactly when every stage succeeds, with one passed entry per declared key |
| Bootstrap.FailureNamesStage | app/bootstrap.py:85-142 | each failure occurs exactly when its stage is the first that does not go through |
| Bootstrap.UnsafeKeyStopsBootstrap | app/bootstrap.py:93-99 | a component that declares a key outside the allow-list stops bootstrap before the factory is called |
| Bootstrap.ReportCoversManifest | app/preflight.py:81-105 | after success the report holds one passed entry per key that each component of the manifest declares, repeats included, and every component is registered |
| Bootstrap.DeclaredInOrder | app/preflight.py:82-83 | checks follow the plan: no check of a component comes before one of an earlier component |
| Bootstrap.StartsAfterStopsBefore | app/bootstrap.py:152-155 | after success every component starts after each of its dependencies and stops before all of them |
| Bootstrap.LifecycleOrders | app/models.py:333-342 | reversing a topological order puts every dependent before its dependency |
| Orders.SortedIsSortedPermutation | app/planner.py:133 | sorting gives an ordered permutation of its input |
| Orders.SortedUnique | app/planner.py:133 | a multiset has a single arrangement sorted by string order, whatever the input order |
| Orders.LexLeIsOrder | app/planner.py:105-108 | comparing identifiers code point by code point is a total order |
| Orders.LexLtMeansFirstDifference | app/planner.py:105-108 | one string precedes another when it runs out, or has the smaller code point, at the first position where they differ |
| Container.ServiceContainer.Register | core/container.py:64-66 | replaces the registration and forgets the singleton cached for that key only |
| Container.ServiceContainer.RegisterInstance | core/container.py:81-83 | the instance is cached at once and returned by every resolve |
| Container.ServiceContainer.Resolve | core/container.py:100-122 | result, cache and error as specified by the resolution function, on success and failure alike, with `_resolving` restored; what that means for the object is `ResolveBuildsInstance` |
| Container.ServiceContainer.Build | core/container.py:196-237 | result, cache and objects as the injection function says, keeping what was cached before a failure, and `_resolving` as it was |
| Container.ServiceContainer.Create | core/container.py:168-180 | builds without registering or caching the class itself |
| Container.ServiceContainer.Reset | core/container.py:130-137 | drops every cached singleton and no registration |
| ContainerResolution.ResolvesExactlyWhenHealthy | core/container.py:87-122 | resolve returns normally exactly when the key is cached, or no path of uncached keys from it repeats a key or reaches one that is unregistered or has a required parameter that cannot be injected |
| ContainerResolution.SuccessMeansHealthy | core/container.py:100-122 | whatever gets cached during the recursion, even by a failing resolve, is healthy |
| ContainerResolution.HealthyMeansSuccess | core/container.py:182-237 | a healthy key resolves although the cache changes during the recursion |
| ContainerResolution.HealthyStep | core/container.py:107-112 | a key is healthy as soon as it lacks nothing and all its uncached dependencies are healthy |
| ContainerResolution.FailureIsExplained | core/container.py:107-118 | a failing resolve exhibits a dependency path that closes a cycle or ends at a key that lacks something |
| ContainerResolution.ErrorNamesItsCause | core/container.py:96-112 | a circularity error means a reachable cycle; an injection error a reachable key with a required parameter without annotation; a lookup error one that is unregistered or needs a class that is |
| ContainerInjection.InjectionIsExact | core/container.py:207-237 | exactly the parameters annotated with a registered or cached class get an argument, each the object that resolving its class gave, for a singleton the one finally cached |
| ContainerInjection.ResolveBuildsInstance | core/container.py:114-122 | after any run, resolving an uncached class returns a new instance of it, built with exactly those arguments |
| ContainerInjection.CreateBuildsInstance | core/container.py:168-180 | create returns a new instance of the class built with exactly its injected arguments |
| ContainerRuns.ResolvedKeeps | core/container.py:100-122 | one resolve keeps every cached object and the run invariant, and caches the singleton it returns |
| ContainerRuns.StepKeeps | core/container.py:52-137 | every operation keeps the run invariant |
| ContainerRuns.LastRegistrationCounts | core/registry.py:36-73 | over any run a key is registered exactly when some operation registered it, and its registration is the one given last |
| ContainerRuns.RunInvariant | core/container.py:52-137 | over any run cached keys are registered singletons and a singleton's provider completes at most once between invalidations of its key |
| ContainerRuns.CachedStays | core/container.py:100-103 | a cached object stays cached until its key is re-registered or the container is reset |
| ContainerRuns.SameObjectUntilTouched | core/container.py:100-122 | every resolve of a singleton returns the same object until its key is touched |
| ContainerRuns.InstanceAlwaysAnswers | core/container.py:76-83 | after any run a key registered with an instance resolves to that very instance |
| ContainerAliases.RunAges | core/container.py:52-137 | over any run, objects cached or completed after an invalidation are not older than the invalidation allows |
| ContainerAliases.UntouchedTargetAgrees | agents/__init__.py:196-199 | a singleton alias and any singleton target not touched since the alias was built resolve to one object |
| ContainerAliases.AliasFollowsTargetExactly | agents/__init__.py:196-199 | for every target that resolves: alias and target give one object exactly when the end of the target's alias chain is cached as, or registered as, the object the alias holds; for a constructed singleton exactly when it was not invalidated since the alias was built |
| ContainerAliases.SourceAnswers | core/container.py:100-122 | a key that resolves gives the object of the first key along its alias chain that is cached or not an alias |
| ContainerAliases.ResolvedIgnoresBusy | core/container.py:107-118 | the `_resolving` set never shows in a successful resolve: with fewer keys in it, result and cache would be the same |
| ContainerAliases.ReRegisteringLeavesAliasStale | core/container.py:61-66 | re-registering the target makes alias and target resolve to different objects |
| Walker.StaticWalker.Walk | audit_harness/trace.py:2895-2927 | walking terminates, enters each (function, specialization) at most once and never past the budget; it visits only what is reachable, and reports exhaustion exactly when it leaves something out |
| Walker.StaticWalker.Enter | audit_harness/trace.py:2927-2937 | entering a body adds it once to what was visited, and to the unreadable ones exactly when it has no source |
| Walker.StaticWalker.ScanBody | audit_harness/trace.py:2895-2927 | every call site of a body is recorded once, with its verdict |
| Walker.StaticWalker.ScanSite | audit_harness/trace.py:3180-3226 | one site: record, discover, and follow exactly the source-available, forced or always-followed targets |
| Walker.ProgressCompose | audit_harness/trace.py:2895-2927 | two stretches of walking add up to one from the union of their roots |
| Trace.WalkSeeds | audit_harness/trace.py:2895-2927 | walking a seed list is walking from the set of its seeds, in any order |
| Trace.ExhaustedExactlyWhenTooBig | audit_harness/trace.py:2917-2927 | `depth_exceeded` stays empty exactly when the reachable keys fit the budget; then the visited set is the reachable set and is closed |
| Trace.ClassifyNode | audit_harness/trace.py:3243-3350 | visits only what is reachable from a node's constructors and default factories, all of it unless the budget runs out (and then something reachable is left out), adds the classes they make, and records the node as unresolved exactly when one of its constructors or factories is |
| Trace.UnresolvedExactly | audit_harness/trace.py:97-101 | a record is unresolved exactly when an existing constructor or some default factory of the class is |
| Trace.ClassifyPass | audit_harness/trace.py:3237-3241 | one pass processes exactly the nodes known at its start, although it may discover more |
| Trace.ClassifyNodes | audit_harness/trace.py:3228-3351 | terminates, and on return every discovered node has exactly one record and nothing discovered is left unprocessed |
| Gate.RunTrace | audit_harness/trace.py:3791-3809 | seeding, classification and the budget tail together: the budget error appears exactly when no set of bodies and nodes closed under everything followed fits the budget |
| Gate.TraceIsLeastFixpoint | audit_harness/trace.py:3228-3351 | without the budget error the bodies visited and nodes classified are exactly the least pair holding the seeds and closed under following, discovery, constructors and factories; in every run they lie within it |
| Gate.CountDetails | audit_harness/run_audit.py:131-156 | the multiplicities count each unresolved explicit detail and sum to the unresolved total |
| Gate.TotalIsCardinality | audit_harness/run_audit.py:147-156 | the sum of a counter's values is the number of elements counted |
| Gate.ResolvedExactlyWhenUncounted | audit_harness/trace.py:3402-3451 | the explicit (implicit) unresolved count is zero exactly when no explicit (implicit) site of a visited body is unresolved |
| Gate.RecordsAreSites | audit_harness/trace.py:3418-3451 | the call records are exactly those of the sites with a verdict in the bodies scanned, with the site's own callee, kind and verdict |
| Gate.CountIsPositions | audit_harness/trace.py:3418-3451 | a count is the number of records satisfying its predicate |
| Gate.MultiplicityIsPositions | audit_harness/run_audit.py:132-136 | a detail's multiplicity is the number of explicit unresolved calls at that site with that callee text |
| Gate.CleanGateExactly | audit_harness/report.py:89-100 | exit code 0 exactly when each other check is clear, no root failed, the budget was never hit, no site of a visited body is unresolved, and no existing constructor or factory of a discovered class is |
| Gate.CleanGateIsComplete | audit_harness/report.py:89-100 | exit code 0 implies that the run reached the least fixed point: every seed, every forced or source-available target of a visited body, every class it names and every constructor and factory of a discovered class was dealt with, and nothing else |
| Gate.RunFollowsExactly | audit_harness/trace.py:3208-3226 | without the budget error exactly the targets that are forced or source-available, and while seeding those in always-followed modules, were followed; every body visited and class discovered has such a reason |
| ImplicitDispatch.InstanceOutcomeExact | audit_harness/trace.py:2438-2491 | resolved means that function runs for every instance dictionary, no-dispatch that nothing runs for any, ambiguous that some dictionary runs it and some does not |
| ImplicitDispatch.AmbiguousCandidateRuns | audit_harness/trace.py:2454-2472 | the candidate of an ambiguous verdict is what runs on every unshadowed instance |
| ImplicitDispatch.LookupIsFirst | audit_harness/trace.py:2447-2449 | lookup gives the attribute of the first class along the MRO that has the name, if any does |
| ImplicitDispatch.OverrideIsAmbiguous | audit_harness/trace.py:2409-2436 | with an overridden access hook the verdict is always ambiguous; on an instance it names what the default protocol would have run, on a class nothing |
| ImplicitDispatch.ClassOutcomeExactly | audit_harness/trace.py:2547-2631 | the class verdict is exact if and only if the access is not one of two named shapes |
| ImplicitDispatch.ClassVerdictMissesNothing | audit_harness/trace.py:2584-2631 | a no-dispatch class verdict hides an execution only behind a set-only metaclass descriptor |
| ImplicitDispatch.InexactShapesExist | audit_harness/trace.py:2596-2617 | both inexact shapes occur |
| ImplicitDispatch.HandleWith | audit_harness/trace.py:2231-2238 | the two loops dispatch the events of the nested with statements |
| ImplicitDispatch.EntersThenExitsNest | audit_harness/trace.py:2206-2212 | entering in order and exiting in reverse is the nesting of single-item with statements |
| Patches.Namespace.Apply | audit_harness/runtime_denial.py:219-226 | patches in order and stops for good at the first target that raises |
| Patches.Namespace.Restore | audit_harness/runtime_denial.py:229-230 | undoes the stack last first |
| Patches.Namespace.WithPatches | audit_harness/runtime_denial.py:215-230 | the attributes are exactly restored if and only if every target before the first unpatchable one was the object's own on entry, in particular for own targets only; a failure means a target was not reached |
| Patches.ReachedAreBooms | audit_harness/runtime_denial.py:219-227 | while active every target reached raises, and those reached are a prefix of the list |
| Patches.RestoredExactlyWhenOwn | audit_harness/runtime_denial.py:193-230 | for any target sequence, repeats and failures included, the store is restored exactly when, judged on the entry store, every target before the first that cannot be patched is an own attribute |
| Patches.EntryDecides | audit_harness/runtime_denial.py:218-226 | while only own attributes have been patched, which targets fail is already decided by the store on entry |
| Patches.InheritedLeavesCopy | audit_harness/runtime_denial.py:211-212 | patching an inherited attribute leaves it behind as the object's own |
| Patches.InheritedIsFirst | audit_harness/runtime_denial.py:193-212 | the value saved is that of the first object, from the patched one along its MRO, that has the attribute |
| Backtest.StridedAt | backtesting/scheduler.py:34-36 | the k-th emitted index is k times the speed, and the schedule covers the series |
| Backtest.RoundTripCost | backtesting/simulator.py:53-60 | buying and selling the same quantity at one candle costs twice the slippage plus twice the commission at the close, never in the taker's favour |
| Backtest.RunStep | backtesting/manager.py:273-333 | the signal loop returns the specified outcome of one step, characterised on the engines' answers by `StepFillsExactly` and `StepPassesExactly` |
| Backtest.FirstSurvivorDecides | backtesting/manager.py:290-333 | a step is decided by the first signal that is not declined, seeing the state the declined ones left; with no such signal nothing is filled and exactly those effects remain |
| BacktestSteps.AttemptFillsExactly | backtesting/manager.py:290-332 | a signal fills exactly when it is not hold, risk approved it, the order and the execution were ready and the quantity is positive; price, slippage, commission and the rest of the fill follow from the order and the candle |
| BacktestSteps.AttemptDeclinesExactly | backtesting/manager.py:291-328 | a signal is declined exactly when it is hold, some engine is missing, or risk, order or execution said no, leaving the world of the last engine asked |
| BacktestSteps.AttemptRaisesExactly | backtesting/simulator.py:45-51 | an attempt raises exactly when an engine asked raised or the simulator had nothing to fill |
| BacktestSteps.StepFillsExactly | backtesting/manager.py:280-333 | a step fills exactly when the strategy, shown at most the last 128 candles, gave signals of which the first not declined fills |
| BacktestSteps.StepPassesExactly | backtesting/manager.py:277-333 | a step leaves no fill exactly when there is no strategy or all its signals are declined in turn |
| BacktestSteps.BookedExactly | backtesting/manager.py:335-379 | a fill is booked to the portfolio, then the position, then the trade, each keeping its previous result when the engine is missing or did not succeed |
| BacktestSteps.UpsertExactly | backtesting/manager.py:435-442 | the latest trade replaces the one with its id at the end of the list, and every other trade is kept |
| BacktestSteps.AdvanceExactly | backtesting/manager.py:182-210 | a pass of the loop changes books, trades, counters, equity, returns and history exactly as the engines' answers say, and is possible exactly when they allow it |
| BacktestSteps.FinishedRunFollowsEngines | backtesting/manager.py:151-216 | a finished run takes exactly the scheduled steps before the cancellation point, each such a pass, from the initial cash and an empty history |
| BacktestSteps.FailedRunIsStuck | backtesting/manager.py:135-140 | a run fails only for a bad replay speed or at a scheduled candle where no pass is possible |
| Backtest.Replay | backtesting/manager.py:182-210 | one pass of the loop body changes the accumulators as one specified step |
| Backtest.Run | backtesting/manager.py:142-184 | the loop ends in the state after the specified number of steps, cancelled exactly when steps remain, failed exactly when some step raises |
| Backtest.EveryStateReconciles | backtesting/manager.py:154-210 | after every step fills and commission are the counts and sums over the history, equity, returns and history lengths agree, and trade ids are unique |
| Backtest.UpsertUnique | backtesting/manager.py:435-442 | replacing or appending a trade keeps ids unique |
| Backtest.HistoryFollowsSchedule | backtesting/manager.py:166-210 | history entry k was recorded at the k-th scheduled candle |
| Backtest.CompoundingReachesEquity | backtesting/manager.py:197-200 | with positive equities, initial cash compounded by the returns is the final equity |
| Backtest.FinishedRunReconciles | backtesting/manager.py:226-244 | the summary of every finished run agrees with its history, equity curve and returns |
| Backtest.HistoryGrows | backtesting/manager.py:198-210 | later states extend the history, equity curve and returns of earlier ones |
| Backtest.CancelledRunIsPrefix | backtesting/manager.py:166-173 | a run cancelled after c steps is in the very state (history, books, trades, fills, commission) of the uncancelled run after its first min(c, total) steps |
| Backtest.NoLookAhead | backtesting/manager.py:280-288 | the state after n steps is the same for all candle series that agree up to the n-th scheduled index |
| Backtest.FinishedRunsAgreeUpTo | backtesting/manager.py:151-216 | two finished backtests whose candles agree up to an index have the same history, fills, equity and returns for every step scheduled up to it |
| Events.Subscription.Unsubscribe | events/subscriber.py:60-64 | cancels one registration the first time and does nothing afterwards |
| Events.EventBus.Subscribe | events/bus.py:56-72 | appends the handler and hands out a fresh active token |
| Events.EventBus.RemoveHandler | events/bus.py:60-66 | removes one occurrence, and the list with its last element |
| Events.EventBus.Publish | events/bus.py:113-120 | dispatches to the lists of the event's MRO, one after another |
| Events.EventBus.Clear | events/bus.py:106-109 | empties the table and leaves every token as it was |
| Events.ServedInOrder | events/bus.py:113-120 | types earlier in the MRO are served first, each with its whole list |
| Events.NewestIsLast | events/bus.py:57-58 | a new handler comes after those subscribed before it, and no other list changes |
| Events.RemovesFirstOccurrence | events/bus.py:60-66 | cancelling takes out the first occurrence of the handler and keeps the order of the rest |
| Events.RunInvariant | events/bus.py:41-72 | over any run no stored list is empty, and each type's handlers are a sub-multiset of its active subscriptions, equal to them if `clear` never ran |
| Events.CompleteExactlyWhenCaughtUp | events/bus.py:56-72 | a handler is listed once per active subscription to a type if and only if at some moment since the last `clear`, or since the start, it had no active subscription to it |
| Events.DeliveredOncePerSubscription | events/bus.py:80-97 | a publish reaches a handler at most once per active subscription in the event's MRO; exactly once if and only if the handler has caught up on each of those types, as it has when `clear` never ran |
| Events.UnsubscribeIdempotent | events/subscriber.py:60-64 | unsubscribing twice is unsubscribing once |
| Events.StaleTokenCancelsSuccessor | events/bus.py:60-66 | a token from before `clear` can cancel a later subscription, whose own token stays active |
| MarketData.PipelineService.OnRaw | market_data/service.py:117-149 | a rejected payload only publishes the error; an accepted one updates one key and publishes one event |
| MarketData.KeyConcerns | market_data/service.py:153-156 | a model belongs to a key exactly when exchange and symbol agree, and for candles the timeframe, which other keys do not have |
| MarketData.EveryPayloadAnswered | market_data/service.py:117-149 | every payload is announced on receipt and then answered once, by its market event or by the provider error |
| MarketData.MergeExtends | market_data/service.py:158-172 | merging a model keeps the latest value of each kind among everything accepted |
| MarketData.CacheIsLatest | market_data/service.py:134-148 | for any interleaving the cached snapshot holds the latest price, tick, trade, candle and book accepted for its key, and nothing else |
| MarketData.CandleKeysHoldOnlyCandles | market_data/service.py:153-172 | candle keys hold only a candle priced at its close; other keys never hold one |
| MarketData.OneEventPerModel | market_data/service.py:147-190 | without clear each accepted model yields exactly one event, in order, and only the first candle of a key opens |
| MarketData.CandleOpenedExactlyOnce | market_data/service.py:182-189 | without clear each candle key has exactly one CandleOpened, and it is the first event |
| Learning.Group | learning/evaluator.py:72-88 | each subject's tally counts and sums exactly its own entries, subjects in order of first appearance |
| Learning.Evaluate | learning/evaluator.py:42-70 | one evaluation per subject, in name order, from the filtered journal |
| Learning.SumOverIsJournal | learning/evaluator.py:72-88 | tallies over all subjects add up to the tally of the whole journal |
| Learning.EvaluationsAddUp | learning/evaluator.py:91-113 | samples, wins and P&L over the evaluations are the journal's totals |
| LearningFigures.EvaluationsExactly | learning/evaluator.py:42-113 | one evaluation per strategy (or role) that occurs, in increasing name order, whose samples, wins, losses, rates, P&L and score are those of its own entries |
| Learning.GenerateFeedback | learning/feedback.py:44-59 | strategies first, then agents, one recommendation per subject that qualifies |
| Learning.AdvisedExactly | learning/feedback.py:65-88 | a subject is advised exactly when it has enough samples: to increase by the step above the threshold, to decrease by it below, to hold at it |
| Learning.AverageBetweenExtremes | learning/metrics.py:49-58 | worst score <= average score <= best score, and the named strategies attain the extremes |
| Learning.ImprovementIsRecentGain | learning/metrics.py:72-87 | the improvement rate is positive exactly when the recent half beats the whole journal's average |
| LearningFigures.MetricsExactly | learning/metrics.py:39-87 | the metrics are the journal's win rate and mean P&L, the mean score, the first best and first worst strategy, and the mean P&L of the second half minus that of the first |
| LearningManager.Manager.LearnFrom | learning/manager.py:101-167 | result and registry as specified: terminal and failing updates change nothing, cancel marks, success re-derives everything from the history |
| LearningManager.RunInvariant | learning/manager.py:106-147 | every stored record has entry i at index i, outcome_count equal to the journal length, won fixed by the P&L and evaluations equal to those of its own history |
| LearningManager.RecordAddsUp | learning/manager.py:127-142 | over strategies and over agents the evaluations of a stored record add up to its journal totals |
| LearningFigures.RecordEvaluatesExactly | learning/manager.py:127-142 | every stored record evaluates each strategy and each role from exactly its own outcomes |
| LearningFigures.JournalIsWhatWasLearned | learning/manager.py:106-147 | over any run the journal under an id is exactly the inputs learned for it before any cancellation, in order, each with the outcome fixed by its context |
| LearningFigures.LearnedReportsExactly | learning/manager.py:127-143 | a successful update stores exactly the advice that its own evaluations call for, and reports their metrics |
| LearningFigures.FeedbackInOrder | learning/feedback.py:45-59 | strategies are advised first, then agents, each in name order and at most once |
| LearningFigures.CancelKeepsTheRest | learning/manager.py:116-125 | cancelling changes nothing of a record but its state |
| LearningManager.WritesAreLegal | learning/state.py:29-66 | every write is a legal transition of one record; exactly the terminal and faulty updates are rejected and leave the registry unchanged |
| LearningManager.WriteLegalExactly | learning/state.py:29-66 | for any registry and input, the write is a legal transition if and only if the update cancels or the record is not in state CREATED |
| LearningManager.JournalOnlyGrows | learning/journal.py:19-24 | a successful update appends one outcome at the next index and never rewrites the journal |
| LearningManager.CreatedRecordBreaksTable | learning/state.py:29-32 | a record stored as CREATED is taken through a transition the table forbids |
| Ranking.NoDroppedOutranksKept | memory/collector.py:43-51 | kept sources are ordered and no dropped source outranks a kept one |
| RankedFigures.CollectedIsSelection | dashboard/aggregator.py:42-50 | the sources kept are as many as the limit allows, ordered by weight, source and name, and none dropped is ahead of one kept |
| RankedFigures.EntriesExactly | memory/planner.py:45-53 | an entry passes exactly at the threshold or above, and is placed by its source (dashboard) or by its category if that is a known scope (memory) |
| Ranking.SortIsStable | dashboard/aggregator.py:48-50 | tied sources keep their input order |
| Ranking.PassingAreContiguous | memory/planner.py:45-53 | the committed entries are a prefix of the batch; the visible panels are a suffix of the worst-first list |
| Ranking.NamedExtremeIsFirst | memory/metrics.py:48-54 | the highest-priority (memory) or worst (dashboard) item named is the first entry |
| Ranking.PendingPlusSuppressed | memory/metrics.py:58-74 | pending plus suppressed is the batch size, and the ratio is the pending share |
| RankedFigures.MetricsExactly | dashboard/metrics.py:41-70 | averages, first extremes, ratio and counts of the batch, with the cumulative totals |
| RankedRecords.Dispatch | memory/dispatcher.py:32-44 | one output per passing entry, in order |
| RankedFigures.OutputsOfSplit | memory/dispatcher.py:32-44 | the outputs are those of the passing entries, in order, with each entry's own fields |
| RankedRecords.Manager.Process | memory/manager.py:103-170 | result and registry as specified for memory and dashboard alike |
| RankedRecords.RunInvariant | dashboard/manager.py:109-148 | every reachable record's counters are sums over its history, and its batch is the last one ranked |
| RankedFigures.HistoryIsWhatWasProcessed | memory/manager.py:111-150 | over any run the history under an id is exactly the batches selected, under its own limit and threshold, from each input processed for it before any cancellation |
| RankedFigures.StoredOutputsExactly | dashboard/widgets.py:32-42 | a stored record's outputs are those of the passing entries of its last batch |
| RankedFigures.UpdatedReportsExactly | memory/manager.py:136-150 | a successful update reports the metrics of the record it stores |
| RankedFigures.CancelKeepsTheRest | dashboard/manager.py:119-128 | cancelling changes nothing of a record but its state |
| RankedRecords.CountersAreHistorySums | memory/metrics.py:65-74 | cumulative totals are history sums, and pending and suppressed describe the last batch |
| RankedRecords.StoredBatchesSplit | dashboard/composer.py:45-52 | in every batch ever stored the passing entries are contiguous at one end |
| RankedRecords.RejectedLeavesStore | memory/manager.py:116-119 | exactly terminal or faulty updates are rejected, and they leave the registry as it was |

## Left out

- Planner.HeapPop: `heapq`'s array layout is not modelled; the ready queue is a sequence from which the smallest entry is extracted, which is all the algorithm observes.
- Orders.SortedIsSortedPermutation: Python's `sorted` is modelled as a stable insertion sort; only its result matters.
- Gate.CleanGateIsComplete: completeness is over call sites the walker sees; a body whose source cannot be read has no sites, and the gate counts nothing for it.
- Trace.ClassifyNodes: assumes the classes that bodies and factories can lead to form a finite set, as the loaded classes of a process do; it is stated with a ghost universe.
- Walker.StaticWalker.Walk: the visit key is a (function, specialization) pair, a program maps each key to its sites, and a site's verdict is given; AST traversal, identity policy and type inference are not modelled.
- Walker.StaticWalker.ScanSite: site labels are free text for the reader; the contracts say which label a record carries, not how labels are spelt, and the suffixes of implicit dispatch are simplified.
- ImplicitDispatch.InstanceOutcomeExact: lookup is along the MRO of class dictionaries; exceptions raised by a data descriptor that lacks the operation run no user function and count as nothing run.
- ImplicitDispatch.ClassOutcomeExactly: `_static_get` on a class sees its MRO only, so names defined only on the metaclass go through the metaclass lookup.
- Patches.Namespace.WithPatches: the body run under the patches assigns no attribute itself.
- Container.ServiceContainer.Resolve: providers are data (constructor injection, alias, returned instance); a provider that runs arbitrary code, returns `None` or registers during a resolve is not modelled, and the lock makes each call one step.
- Container.ServiceContainer.Create: a class whose signature cannot be inspected is a constructor without parameters; `*args` and `**kwargs` are dropped from the parameter list beforehand.
- ContainerAliases.AliasFollowsTargetExactly: assumes callers hand in only instances that exist at that moment.
- Backtest.Run: the performance and metrics stage, snapshots, the registry write, pause events, clocks and logging are left out; engines are arbitrary deterministic functions that may raise.
- Backtest.FinishedRunReconciles: `Decimal` is exact, so the 28-digit context rounding is not modelled.
- LearningManager.Manager.LearnFrom: timestamps come in with the call, a raising component is a flag of the context, and events and log lines are left out.
- RankedRecords.Manager.Process: memory's and dashboard's constant detail texts are left out, and both keep their own names for the same fields.
- Events.EventBus.Publish: concurrency of the handlers is not modelled, since each handler is invoked once from one snapshot and its exceptions are isolated.
- MarketData.PipelineService.OnRaw: the normalizer's answer is an input; the concurrent interleaving of payloads is any sequence of these steps, and the type errors of the cache cannot occur in the model.
- Bootstrap.RunDryRunBootstrap: configuration views, error texts and the registrars' own effects are left out; registration and resolution are arbitrary deterministic answers that may depend on everything before them.
- Planner.Plan: priorities are real numbers without NaN, and errors carry their kind and not their text.
- Settings, logging, database repositories, agent voting, execution and exchange managers, and the heuristics for module state and discovery are not part of this model.
