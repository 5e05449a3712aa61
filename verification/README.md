# Verified model of nimbusfab's ordering and execution core

nimbusfab deploys the components of a project to several clouds. Components refer to each
other's outputs, so a component has to be planned and applied after the ones it refers to and
destroyed before them. This project models the code that decides these orders and carries them
out, and proves what each run guarantees under failures, cancellation and any interleaving of
its goroutines.

Run `dafny verify dfyconfig.toml` to check everything.

## How the pieces fit

* **One reference graph, four engines.** `RefGraph` has walks, cycles and the pigeonhole
  argument (a set in which everyone has a successor holds a cycle). `Toposort` is
  `upstream.Toposort` with its in-degree map and sorted ready list, `FifoSort` is the
  orchestrator's `topoSort` with its queue, `Phase5` the validator's three-colour search with
  parent links as a class over arrays, `Ranks` the memoised longest-path layering. `Agreement`
  proves that they accept the same inputs.
* **Executing a plan.** `Targets` sorts targets, `Planning` builds a plan, `ApplyOrdered` walks
  it with a project at hand and `ApplyLaws` states what every such run guarantees against an
  arbitrary runner. `Destroy` is the reverse walk. `StaleProject` says exactly what is left of
  both when the project no longer declares all planned components. `FanOut` is the path without
  a project: regrouping, goroutines, wait group. `Policies` is retry and rollback, and
  `ApplyPlan` follows such an apply from the plan through the fan-out to either.
* **Concurrency.** `Semaphores` and `Broker` are step machines; their theorems hold in every
  reachable state. Channels, slice headers and backing arrays are explicit.
* **Supporting algorithms.** `CanonicalJson` (with `JsonLeaves`, Go's encoding of strings,
  booleans and integers), `Layout`, `Drift`, `Parity`, `VarNames`.

Whatever the code cannot control is a parameter that answers arbitrarily: the tofu runner and
the state files found at each turn (`ApplyOrdered.World`), credentials and destroys
(`Destroy.DestroyWorld`, `Policies.PolicyWorld`), planning one target (`Planning.PlanWorld`).
Where Go ranges over a map and the order could show, the model picks the keys in an arbitrary order.

## What the code does not do

Several promises of the documentation turned out not to hold as stated. The code is modelled as
it is; each has a lemma that says exactly when the promise holds.

* A failed rollback is documented to give the status `rollback_failed`
  (docs/superpowers/specs/2026-05-15-provisioner-design.md:723). No code path returns it: after a
  rollback the apply is `failed` whatever Destroy answers (`Policies.FinishApply`,
  `Policies.FailedRollbackIsJustFailed`).
* Broker subscribers are documented to see only events posted after they subscribed
  (internal/webapi/runner/broker.go:35-37). An earlier event still waiting in the publisher's
  channel, or taken from it and not yet dispatched, is seen too, and only such an event
  (`Broker.ReplayIff`, `Broker.NoReplayIff`, `Broker.ReplayRun`).
* An unsubscribed channel is documented to be closed by the publisher later
  (internal/webapi/runner/broker.go:85-87). It is closed only if a close in progress had taken the
  list before (`Broker.ClosedAfterUnsubscribeIff`, `Broker.UnsubscribeTooLate`), and offered at
  most the event then being dispatched (`Broker.OfferedAfterUnsubscribeIff`,
  `Broker.OfferedAtMostOnce`, `Broker.UnsubscribeWhileDispatching`).
* `ToposortTargets` gives a component missing from the project rank 0, so a dependent may be
  applied before, and destroyed after, a planned target it refers to. One condition on project
  and plan decides both (`StaleProject.AppliesAfterUpstreamIff`,
  `StaleProject.DestroysBeforeUpstreamIff`, with `StaleProject.StaleProjectAppliesTooEarly` and
  `StaleProject.StaleProjectDestroysTooEarly`).
* Drift events of one target alternate only while its row does not disappear while drifted and
  come back drifted (`Drift.ToldAlternatesIff`, `Drift.DeletedRowDetectedTwice`).
* A numeric parity score is within 0 and 1, and 1 exactly on equal values, only if the values
  are equal or the greatest is positive (`Parity.ClosenessFaithfulIff`,
  `Parity.NegativeSizesScoreAboveOne`).
* `VarName` is injective only over output sets in which no name hides another behind an
  underscore (`VarNames.VarNameInjectiveIff`); the built-in outputs are such a set.

## Model

| member | source | states |
|---|---|---|
| `Toposort.Toposort` | pkg/provisioner/upstream/upstream.go:46-105 | the loop over in-degrees and the sorted ready list always places the least component whose known references are all placed, and reports a duplicate name or a cycle |
| `Order.LessIsComesFirst` | pkg/provisioner/upstream/upstream.go:58-85 | the comparison behind every sorted list of names is the dictionary's: a proper beginning comes first, otherwise the smaller code point at the first difference decides |
| `Order.SortNamesAscends` | pkg/provisioner/upstream/upstream.go:58-85 | sorting names permutes them and puts each before those it comes before |
| `Toposort.IndexByName` | pkg/provisioner/upstream/upstream.go:47-53 | the index holds every component under its name, and fails exactly on a repeated name |
| `Toposort.CountRefs` | pkg/provisioner/upstream/upstream.go:54-66 | after counting, each in-degree is the number of known references of the component, repetitions included, and dependents mirror them |
| `Toposort.Release` | pkg/provisioner/upstream/upstream.go:79-98 | taking a placed component off its dependents keeps the ready list sorted and exactly the unplaced components of in-degree zero |
| `ToposortLaws.ToposortSucceedsIffAcyclic` | pkg/provisioner/upstream/upstream.go:86-103 | on unique names it succeeds exactly when no component reaches itself over known references; a stuck run yields a cycle by pigeonhole |
| `ToposortLaws.ToposortOrders` | pkg/provisioner/upstream/upstream.go:42-105 | the result is a permutation of the input with every known reference first, and of all such orders it has the first list of names by code points |
| `ToposortLaws.ToposortIgnoresDeclarationOrder` | pkg/provisioner/upstream/upstream.go:46-105 | permuting the input changes neither the result nor the error |
| `FifoSort.TopoSort` | pkg/provisioner/orchestrator.go:16-61 | the queue algorithm serves components in the order of its specification, rejecting duplicates, unknown references and cycles, in this precedence |
| `FifoSort.FifoSucceedsIffAcyclic` | pkg/provisioner/orchestrator.go:29-59 | each error happens exactly on its inputs, and with all references known it succeeds exactly when `upstream.Toposort` does |
| `FifoSort.FifoOrders` | pkg/provisioner/orchestrator.go:43-60 | its result is a permutation of the input with every reference before its dependent |
| `FifoSort.FirstReadyFirstServed` | pkg/provisioner/orchestrator.go:36-57 | without mention of a queue: if all that a later component refers to is among the first k placed, so is all that an earlier one refers to, and two that become ready at the same moment stand in the order of their names |
| `FifoSort.ReleaseToQueue` | pkg/provisioner/orchestrator.go:49-55 | the components released by a placed one join the queue once each and sorted by name |
| `Phase5.CycleFinder.ChainBack` | internal/dsl/validator/phase5_refs.go:136-154 | the parent walk always reaches the gray node, so the chain is the search path from that node on and nothing is put in front of it |
| `Phase5.CycleFinder.EmitCycle` | internal/dsl/validator/phase5_refs.go:136-173 | remembers the rendering of the cycle just closed and reports that cycle unless its rendering was remembered before; the cycle's names are consecutive references that close, with distinct nodes in between |
| `Phase5.CycleFinder.Dfs` | internal/dsl/validator/phase5_refs.go:109-126 | a search keeps gray exactly the path and black exactly the finished nodes, grows the report, and finishes its root |
| `Phase5.CycleFinder.DetectCycles` | internal/dsl/validator/phase5_refs.go:95-134 | something is reported exactly when a cycle of length two or more exists, and if names are unique and hold no arrow every cycle has two consecutive nodes on one reported cycle |
| `Phase5.SameRenderingSameCycle` | internal/dsl/validator/phase5_refs.go:155-173 | on unique names without an arrow two reports with one rendering are of one and the same cycle, so suppressing repeats loses none |
| `Phase5.StretchReports` | internal/dsl/validator/phase5_refs.go:119-121 | an edge from the end of the path back to a gray node closes a genuine cycle |
| `RefValidation.Phase5Refs` | internal/dsl/validator/phase5_refs.go:17-80 | every reference gets the issue it deserves, once and in order, followed by genuine, pairwise different cycles: at least one if there is any, and on unique names without an arrow one that shares two nodes with each cycle there is; there are no issues exactly when every reference names another component that offers the output and there is no cycle |
| `RefValidation.CheckRef` | internal/dsl/validator/phase5_refs.go:29-76 | one reference yields at most one of self reference, unknown component, unknown output; a target of unregistered type is passed over |
| `RefValidation.IssueIs` | internal/dsl/validator/phase5_refs.go:29-76 | self reference exactly on the component's own name, unknown component exactly when none has the name, unknown output exactly when the type of the last component of that name is registered and does not declare it |
| `Ranks.AssignRanks` | pkg/graph/layout.go:133-186 | succeeds exactly on unique names without a cycle and then gives each component one more than the greatest rank it refers to |
| `Ranks.Ranker.Visit` | pkg/graph/layout.go:145-173 | the memoised search terminates, never changes a rank it has given, and fails only on a cycle |
| `Ranks.RankIsLongestChain` | pkg/graph/layout.go:154-171 | a rank is the length of the longest chain of known references below the component |
| `Ranks.RanksAreContiguous` | pkg/graph/layout.go:154-171 | every rank up to the greatest is occupied and all are below the number of components |
| `Ranks.RankingUnique` | pkg/graph/layout.go:175-185 | there is one ranking, whatever the search order |
| `Agreement.RunAll` | pkg/provisioner/upstream/upstream.go:46-105 | run on one list of uniquely named components, the four engines accept or reject together; the queue engine also needs all references known |
| `Agreement.ReportsIffCyclic` | internal/dsl/validator/phase5_refs.go:31-78 | phase 5 reports a self reference or a cycle exactly when the known-reference graph is cyclic |
| `Agreement.SilentIsOrdered` | internal/dsl/validator/phase5_refs.go:17-80 | uniquely named components that phase 5 has nothing to say about are ordered by both Toposort and the queue engine |
| `Agreement.CyclesAgree` | internal/dsl/validator/phase5_refs.go:114-117 | a cycle of names is a self reference or a cycle of positions |
| `Targets.ToposortTargets` | pkg/provisioner/upstream/upstream.go:170-192 | targets are stably sorted by component rank, cloud and region |
| `Targets.TargetsInOrder` | pkg/provisioner/upstream/upstream.go:175-190 | of any two targets the earlier has its component earlier in Toposort's order, an unknown one counting as the first, or the same one and a cloud, or in the same cloud a region, that comes first |
| `Targets.ByRankIsStrictWeakOrder` | pkg/provisioner/upstream/upstream.go:181-190 | the comparison passed to the sort is a strict weak order, as `sort.SliceStable` requires |
| `Targets.TargetsDependencyFirst` | pkg/provisioner/upstream/upstream.go:167-192 | no target is lost or added, and every target of an upstream component precedes every target of a dependent, whatever the clouds and regions |
| `Planning.PreflightPairing` | pkg/provisioner/upstream/upstream.go:261-291 | lists, in order, exactly the (target, reference) pairs no upstream target answers |
| `Planning.PairErrorsCount` | pkg/provisioner/upstream/upstream.go:261-291 | on unique names an error is listed as often as its component lists the target times as often as it declares the reference, and never if the upstream component has a target there |
| `Planning.PairErrorsInOrder` | pkg/provisioner/upstream/upstream.go:268-289 | errors stand in the order of components, targets and references |
| `Planning.Pair` | pkg/provisioner/upstream/upstream.go:157-165 | finds the upstream target of the same cloud and region exactly if there is one |
| `Planning.UnpairedHas` | pkg/provisioner/upstream/upstream.go:276-288 | an error is listed for a target exactly when it names one of its references and no upstream target matches |
| `Planning.MatchesFilter` | pkg/provisioner/plan.go:297-309 | a target is selected by no filters at all or by one whose non-empty fields all match |
| `Planning.SelectsIff` | pkg/provisioner/plan.go:301-307 | a filter selects the target it becomes when its empty fields are filled from it |
| `Planning.Plan` | pkg/provisioner/plan.go:38-80 | pairing errors come first, then ordering errors; a returned plan holds one result for each selected target in order and has changes exactly if one of them has; otherwise the first target that failed is named |
| `Planning.PlanIsDependencyFirst` | pkg/provisioner/plan.go:56-75 | a plan lists all targets of an upstream component before any target of a dependent |
| `Planning.PlanCovers` | pkg/provisioner/plan.go:56-75 | a plan covers exactly the declared targets its filters select, each as often as it is declared |
| `Planning.PlanNeverRepeats` | pkg/provisioner/plan.go:56-75 | if no component lists a target twice, the plan has each selected target of each component exactly once |
| `Planning.PlannedInOrder` | pkg/provisioner/plan.go:56-75 | a plan goes through the components in order, and within one through its targets in the order of declaration |
| `Planning.UnfilteredPlanPairs` | pkg/provisioner/apply.go:231-240 | after a silent pairing check and without filters, an apply never fails for want of an upstream target in the same cloud and region |
| `ApplyOrdered.BuildRealVars` | pkg/provisioner/apply.go:222-262 | yields each reference's value under its variable name, or the first fault and no later one |
| `ApplyOrdered.VarsCarryTheirOwnOutput` | pkg/provisioner/apply.go:230-261 | with legal names and built-in outputs no variable carries the value of a different component or output |
| `ApplyOrdered.ApplyTarget` | pkg/provisioner/apply.go:94-210 | one target is blocked below a failed or blocked upstream, else read, re-planned and applied; it succeeds only if every step does, and the runner calls are exactly those made |
| `ApplyOrdered.ApplyToposorted` | pkg/provisioner/apply.go:66-217 | one result per target in dependency order, each determined by the statuses recorded before it; overall succeeded and failed as counted |
| `ApplyLaws.AppliesOnlyAfterUpstreamSucceeded` | pkg/provisioner/apply.go:91-184 | Apply is called on a target only when each of its references has a planned target in the same cloud and region already recorded as succeeded |
| `ApplyLaws.BlockedExactlyBelowFailure` | pkg/provisioner/apply.go:99-135 | a target is blocked exactly when a chain of planned references in its cloud and region leads to one that failed, and the runner is never called on it |
| `ApplyLaws.SucceededIsUpwardClosed` | pkg/provisioner/apply.go:91-210 | everything upstream of a succeeded target succeeded before it |
| `ApplyLaws.ResultsCoverPlan` | pkg/provisioner/apply.go:91-217 | results and plan targets correspond one to one; the summary is succeeded exactly when all succeeded, failed exactly when there are results and none succeeded |
| `ApplyLaws.StatusFromCalls` | pkg/provisioner/apply.go:137-206 | a turn has succeeded exactly when Apply was called and went well; Apply is called exactly when Plan was and went well; a failed Plan or Apply is recorded as failed |
| `ApplyLaws.SucceedsIffAllGood` | pkg/provisioner/apply.go:66-217 | the whole apply succeeds exactly when every read, Plan and Apply of every turn does |
| `ApplyLaws.ResultsKeepTargetIds` | pkg/provisioner/apply.go:82-198 | each result carries the identifier its target has in the plan |
| `ApplyLaws.ReadRefAnswers` | pkg/provisioner/apply.go:231-259 | a reference reads the output of its name from the state file in the directory of the upstream target in the same cloud and region, and each way to fail has its own error |
| `ApplyLaws.PlansWithOwnOutputs` | pkg/provisioner/apply.go:137-156 | with legal names and built-in outputs Plan is called with the value just read for each reference under that reference's variable |
| `StaleProject.AppliesAfterUpstreamIff` | pkg/provisioner/upstream/upstream.go:175-190 | when Apply is called, an upstream target is already recorded as succeeded exactly if its component is declared, or the dependent is not of the first component in order, or the upstream comes first by cloud and region or, in the same place, in the plan |
| `StaleProject.DestroysBeforeUpstreamIff` | pkg/provisioner/destroy.go:107-131 | under that same condition, and only then, a target comes before the target it refers to in the order of destruction, in whatever cloud and region |
| `StaleProject.StaleProjectAppliesTooEarly` | pkg/provisioner/upstream/upstream.go:175-190 | a project that lost a component and a plan that still has it, on which the run applies the dependent before its upstream |
| `StaleProject.StaleProjectDestroysTooEarly` | pkg/provisioner/destroy.go:107-131 | on the same project and plan the upstream is destroyed before its dependent |
| `StaleProject.TiesKeepPlanOrder` | pkg/provisioner/upstream/upstream.go:181-190 | targets of one rank, cloud and region stay in plan order |
| `Results.Summarize` | pkg/provisioner/apply.go:439-461 | succeeded exactly without failed, reverted, skipped or blocked results; failed exactly with such results and no success; never a failed rollback |
| `Destroy.ReverseInPlace` | pkg/provisioner/destroy.go:129-131 | the swap loop reverses the array |
| `Destroy.DestroyToposorted` | pkg/provisioner/destroy.go:111-204 | one attempt and one result per target in reversed order, whatever the credentials and the runner answer |
| `Destroy.DestroysDependentsFirst` | pkg/provisioner/destroy.go:107-131 | each plan target is attempted exactly once, and every target of a dependent before any target of a component it refers to |
| `Policies.MaybeRetry` | pkg/provisioner/apply.go:273-295 | after the rounds each slot is what its own sequence of attempts makes it, and the log counts exactly the workers run again |
| `Policies.RetryKeepsSlots` | pkg/provisioner/apply.go:273-295 | a slot keeps its identity, a succeeded slot is neither run again nor altered, no worker is run again more than the allowed times, and a failed slot succeeds exactly if one of its retries does |
| `Policies.RetriedSlot` | pkg/provisioner/apply.go:277-292 | a failed slot's worker runs again in exactly the rounds up to its first success in which it gets its semaphores, and the slot ends with the planned target's identifier, or with none where the last round was refused |
| `Policies.SettledStays` | pkg/provisioner/apply.go:281-284 | a slot that is not failed stays as it is in all later rounds |
| `Policies.RollbackAll` | pkg/provisioner/apply.go:297-323 | Destroy is called once on exactly the succeeded, planned slots whose credentials resolve; only those with a plan change, and only their status |
| `Policies.FinishApply` | pkg/provisioner/apply.go:51-57 | retry and rollback exclude each other, and a request for no or fewer retries means one; once a rollback fires on planned targets none is left succeeded and the apply has failed |
| `Policies.FailedRollbackIsJustFailed` | pkg/provisioner/apply.go:297-323 | a rollback whose Destroy fails leaves the apply failed, not with a status of its own |
| `Policies.FindPlanFinds` | pkg/provisioner/apply.go:405-413 | the lookup finds a planned target of the identity exactly if there is one |
| `Policies.FindPlanIsFirst` | pkg/provisioner/apply.go:405-413 | what it finds is the first such target |
| `FanOut.ComponentsFromPlan` | pkg/provisioner/apply.go:418-437 | rebuilds one group per component, in order of first mention, with its targets in plan order |
| `FanOut.GroupsKeepTargets` | pkg/provisioner/apply.go:418-437 | regrouping keeps every target as often as the plan has it |
| `FanOut.TargetsNamedInOrder` | pkg/provisioner/apply.go:427-435 | a group lists its targets in plan order |
| `FanOut.FirstNamesInOrder` | pkg/provisioner/apply.go:419-426 | an earlier group's component is mentioned in the plan before any mention of a later one's |
| `FanOut.FirstNamesOrder` | pkg/provisioner/apply.go:418-437 | the groups of a plan in dependency order are in dependency order |
| `FanOut.StepKeeps` | pkg/provisioner/orchestrator.go:147-183 | every step keeps the wait group's counter equal to the goroutines launched and not exited, and each written slot its own target's result, succeeded or failed |
| `FanOut.RunResults` | pkg/provisioner/orchestrator.go:147-165 | under every interleaving the results line up with the targets slot by slot, and each has succeeded or failed |
| `FanOut.WrittenOnce` | pkg/provisioner/orchestrator.go:147-183 | what a worker or a refusal writes, succeeded as the worker did or failed without an identifier, is never overwritten and ends up at the slot's place among the results |
| `FanOut.EveryResultWasWritten` | pkg/provisioner/orchestrator.go:147-183 | every result was written by some worker or refusal of the run |
| `FanOut.NeverStuck` | pkg/provisioner/orchestrator.go:155-164 | until the last component is left some step is enabled |
| `FanOut.NobodyWaits` | pkg/provisioner/orchestrator.go:155-164 | goroutines are launched and make their steps without waiting for one another, and the component is left exactly when all have exited |
| `FanOut.WorkerStartsAfterUpstream` | pkg/provisioner/orchestrator.go:147-165 | when a worker starts, every plan target of each component its own refers to has finished, under every interleaving |
| `FanOut.PlanThenApply` | pkg/provisioner/apply.go:45-50 | a plan made by Plan and applied without a project starts workers in dependency order and gives each planned target one result |
| `FanOut.DestroyStartsAfterDependents` | pkg/provisioner/destroy.go:89-97 | on the reversed groups a worker starts only after every plan target of each dependent component has finished |
| `ApplyPlan.FirstPass` | pkg/provisioner/apply.go:45-50 | whatever the interleaving, the planned targets and the results correspond one to one, and every result is planned and has succeeded or failed |
| `ApplyPlan.FinishPlan` | pkg/provisioner/apply.go:36-57 | from the plan through any interleaving to the answer: under retry a target has succeeded in the end exactly if its first attempt or one of its retries did; a rollback destroys exactly the succeeded targets whose credentials resolve and fails the apply; any other policy leaves the results alone |
| `ApplyPlan.DestroyedOnce` | pkg/provisioner/apply.go:297-323 | when targets are distinct a rollback destroys no target twice |
| `Semaphores.ResolveCaps` | pkg/provisioner/orchestrator.go:73-85 | each cap by itself: a positive request is kept, any other gives the default, the number of CPUs for the global cap, 8 a cloud and 4 a credential |
| `Semaphores.StepKeeps` | pkg/provisioner/orchestrator.go:107-143 | every step keeps each channel's tokens equal to the workers holding it and within its capacity, and every worker on the one channel of its cloud and of its credential |
| `Semaphores.CapsRespected` | pkg/provisioner/orchestrator.go:107-143 | in every reachable state the workers at work keep to the global, per-cloud and per-credential caps |
| `Semaphores.MovesOnIff` | pkg/provisioner/orchestrator.go:107-134 | a worker is held up at a semaphore exactly while as many workers as the cap admits are past it |
| `Semaphores.WorksOnce` | pkg/provisioner/orchestrator.go:107-183 | no worker works twice, and none is done without having worked unless the run was cancelled |
| `Semaphores.ReturnsNeverBlock` | pkg/provisioner/orchestrator.go:126-142 | taking a token back out of a channel never blocks |
| `Semaphores.NoDeadlock` | pkg/provisioner/orchestrator.go:87-143 | with caps of at least 1, while a worker is unfinished some worker can step, cancelled or not |
| `Semaphores.RunsEnd` | pkg/provisioner/orchestrator.go:107-143 | every run ends within eight steps a worker, and then all workers are done and all tokens, those of cancelled acquires included, are back |
| `Broker.StepKeeps` | internal/webapi/runner/broker.go:38-98 | every step keeps the subscriber list, the copy being dispatched and the list being closed consistent, and uses no closed channel |
| `Broker.NeverPanics` | internal/webapi/runner/broker.go:61-83 | under every interleaving no channel is sent to after its close or closed twice |
| `Broker.ClosingKept` | internal/webapi/runner/broker.go:75-83 | appends and in-place splices never disturb the slice a close is iterating over |
| `Broker.SpliceList` | internal/webapi/runner/broker.go:91-96 | the splice inside the backing array removes exactly the one channel and keeps the order of the rest |
| `Broker.InOrderDelivery` | internal/webapi/runner/broker.go:61-73 | a subscriber is offered, without a gap, the events dispatched since it subscribed; it receives them in order, never twice, less those that were dropped |
| `Broker.OfferKeptIff` | internal/webapi/runner/broker.go:61-73 | from every reachable state an offered event is kept exactly when fewer than a full buffer of kept events is unread, and no other channel changes |
| `Broker.DroppedOnlyWhenFull` | internal/webapi/runner/broker.go:28-73 | a buffer has the size asked for, or 64 if that is not positive, and a subscriber loses no event before that many were kept for it |
| `Broker.PublishWaitsIff` | internal/webapi/runner/broker.go:50-58 | publishing waits exactly while a full buffer of events is queued for the goroutine |
| `Broker.EveryoneIsClosed` | internal/webapi/runner/broker.go:50-83 | once a close has ended, every channel that was on the list it took is closed, whoever came or left meanwhile |
| `Broker.NoReplayIff` | internal/webapi/runner/broker.go:35-44 | in any run after a subscription in which the new channel is offered anything, it is offered only events published later exactly when, at the subscription, no event was waiting in the publisher's channel or taken from it and not yet dispatched |
| `Broker.ReplayIff` | internal/webapi/runner/broker.go:35-73 | a new subscriber can come to receive an event published before it subscribed exactly when one is waiting then, or taken and not yet dispatched |
| `Broker.ReplayRun` | internal/webapi/runner/broker.go:35-73 | a run from the new broker in which a subscriber receives the event published before it came |
| `Broker.SubscribeRecords` | internal/webapi/runner/broker.go:38-44 | whatever happens after a subscription, its channel's events count from the number dispatched at the moment of subscribing |
| `Broker.ClosedAfterUnsubscribeIff` | internal/webapi/runner/broker.go:75-98 | an unsubscribed open channel can still be closed exactly if a close in progress has taken the list it was on and not reached it |
| `Broker.OfferedAfterUnsubscribeIff` | internal/webapi/runner/broker.go:61-98 | an unsubscribed channel can still be offered an event exactly if a dispatch in progress has copied the list it was on and not reached it |
| `Broker.OfferedAtMostOnce` | internal/webapi/runner/broker.go:61-98 | after it is unsubscribed a channel is offered nothing more in any run, except once the event being dispatched if that dispatch still has the channel ahead |
| `Broker.UnsubscribeWhileDispatching` | internal/webapi/runner/broker.go:61-98 | such a state is reachable |
| `Broker.UnsubscribeTooLate` | internal/webapi/runner/broker.go:75-98 | a state in which a close still has an unsubscribed channel ahead is reachable |
| `Broker.PublisherNeverStuck` | internal/webapi/runner/broker.go:50-83 | the publisher goroutine never blocks on a subscriber |
| `CanonicalJson.CanonicalJSON` | pkg/provisioner/emit.go:13-19 | the buffer ends up as the text of the value, or there is none exactly when some leaf cannot be marshalled |
| `CanonicalJson.DictText` | pkg/provisioner/emit.go:46-66 | a map's text is that of its fields, key, colon and value, in ascending order of keys with commas between, in braces; there is none exactly when a value has none |
| `CanonicalJson.ListText` | pkg/provisioner/emit.go:68-80 | a list's text is that of its items with commas between, in brackets; there is none exactly when an item has none |
| `CanonicalJson.LeafText` | pkg/provisioner/emit.go:33-42 | nil is written as null, other leaves as they are encoded |
| `CanonicalJson.Writer.WriteMap` | pkg/provisioner/emit.go:46-66 | appends exactly the fields in key order between braces |
| `CanonicalJson.MapKeys` | pkg/provisioner/emit.go:47-51 | whatever order the map yields its keys in, the sorted list is the same |
| `CanonicalJson.TextDetermines` | pkg/provisioner/emit.go:21-80 | a value's text determines where it ends and, identifying a string slice with a list of strings, the value |
| `CanonicalJson.CanonicalIff` | pkg/provisioner/emit.go:10-80 | equal bytes exactly for equal values |
| `JsonLeaves.GoEncodingIsGood` | pkg/provisioner/emit.go:36-41 | strings, booleans and integers as `encoding/json` writes them are injective and self-delimiting |
| `JsonLeaves.ItoaReadsBack` | pkg/provisioner/emit.go:36-41 | the digits of a number read back as the number |
| `JsonLeaves.GoCanonicalIff` | pkg/provisioner/emit.go:10-80 | so on trees of those leaves canonical JSON is injective without further hypotheses |
| `Layout.Layout` | pkg/graph/layout.go:21-131 | fails exactly on duplicates and cycles, with the duplicate error whenever a name repeats; only "lr" gives left to right; it is empty on no components, and otherwise lays the components out by rank and name |
| `Layout.BoxesApart` | pkg/graph/layout.go:58-97 | one box per component, sorted by name, and no two closer than a gap |
| `Layout.BoxesInside` | pkg/graph/layout.go:113-121 | every box keeps the margin inside width and height |
| `Layout.BoxesStandAt` | pkg/graph/layout.go:8-80 | boxes of 140 by 56 on a grid of 172 by 120 from (24, 24): the rank counts along one axis, the number of smaller names of the same rank along the other |
| `Layout.ExtentIsTight` | pkg/graph/layout.go:113-121 | some box is just the margin away from the right side, and some from the lower one |
| `Layout.EdgesFlow` | pkg/graph/layout.go:99-225 | every edge drawn is a known reference; its path leaves the middle of the side on which the source's box ends, enters the middle of the side on which the destination's begins, at least a gap further along the rank axis, and bends halfway; it is unmatched exactly when a pairing error names it |
| `Layout.ReferencesDrawn` | pkg/graph/layout.go:99-111 | every known reference is drawn |
| `Layout.EdgesFollowRefs` | pkg/graph/layout.go:99-111 | the edges are the known references, one each, in the order of declaration |
| `Layout.ColumnSorted` | pkg/graph/layout.go:46-48 | each rank is sorted by name |
| `Layout.LayoutIgnoresDeclarationOrder` | pkg/graph/layout.go:32-97 | boxes and extent do not depend on the order of declaration |
| `Layout.UnmatchedHas` | pkg/graph/layout.go:201-207 | the set holds exactly the pairs some error names |
| `VarNames.SanitizeIdent` | pkg/provisioner/upstream/upstream.go:23-40 | letters are lowered, other characters become underscores, a leading digit is prefixed |
| `VarNames.SanitizedIs` | pkg/provisioner/upstream/upstream.go:23-40 | an underscore before an empty name or a leading digit, then character by character the letter of the lower-case alphabet for that of the upper-case one, the same letter, digit or underscore, or an underscore |
| `VarNames.VarNameIs` | pkg/provisioner/upstream/upstream.go:16-21 | a variable is the sanitized component name between the fixed prefix and the output |
| `VarNames.VarNameInjectiveIff` | pkg/provisioner/upstream/upstream.go:19-40 | for legal component names different outputs get different variables exactly when no output name ends in an underscore and another one behind a possible name ending |
| `VarNames.DefaultVarNamesInjective` | pkg/components/types.go:43-92 | with the built-in outputs a variable name determines component and output |
| `Drift.TransitionEvents` | pkg/drift/scheduler/scheduler.go:238-297 | the loop collects exactly the edges of the rows and emits the non-empty collections |
| `Drift.StepEvents` | pkg/drift/scheduler/scheduler.go:226-297 | a step emits at most one event a kind, lists no target twice and tells of a target exactly its edge |
| `Drift.EventsInOrder` | pkg/drift/scheduler/scheduler.go:254-296 | detections come before resolutions, and an event lists its targets in the order of the rows |
| `Drift.ToldIsStory` | pkg/drift/scheduler/scheduler.go:228-297 | with one row a target, what the events of a run of snapshots tell of it, in order, is its sequence of edges |
| `Drift.BalancedIff` | pkg/drift/scheduler/scheduler.go:228-234 | detections less resolutions follow the drift state at every snapshot exactly when the row never disappears while drifted |
| `Drift.AlternatesIff` | pkg/drift/scheduler/scheduler.go:228-234 | a target's events alternate exactly when its row does not disappear while drifted and come back drifted |
| `Drift.ToldAlternatesIff` | pkg/drift/scheduler/scheduler.go:228-297 | so the events told of a target alternate exactly under that condition |
| `Drift.UpsertOnlyAlternates` | pkg/drift/scheduler/scheduler.go:228-234 | with rows only upserted from an empty table, events alternate, detection first, and one more detection than resolution means drifted now |
| `Drift.DeletedRowDetectedTwice` | pkg/drift/scheduler/scheduler.go:269-277 | a row deleted and inserted again while drifted is detected twice without a resolution |
| `Parity.NumericCmp` | pkg/parity/score.go:201-238 | the score is computed from the true extremes, matches mean equal values, and the score is faithful exactly on equal values or a positive maximum |
| `Parity.ExactCmp` | pkg/parity/score.go:240-263 | the score is 1 exactly when all present values are equal, else 0 |
| `Parity.FeaturesComparisons` | pkg/parity/score.go:165-199 | one comparison for each feature any target has, a missing feature counting as false |
| `Parity.ClosenessFaithfulIff` | pkg/parity/score.go:227-236 | the numeric score is in 0 to 1 and 1 exactly on a match, exactly when the values are equal or the greatest is positive |
| `Parity.ClosenessIsRatio` | pkg/parity/score.go:227-236 | the numeric score times the greatest value is the least one when both have one sign, nothing for a negative least and a positive greatest, and 1 for a greatest of zero |
| `Parity.NegativeSizesScoreAboveOne` | pkg/parity/score.go:227-236 | two different negative sizes that score 2 |
| `Parity.BuildComparisons` | pkg/parity/score.go:21-42 | the class of the first target decides: exactly its attributes in order, each with whether the targets agree on it and a score faithful exactly where it can be, then each feature key any target has once; an unknown class compares nothing |
| `Parity.Score` | pkg/parity/score.go:45-78 | the accumulating loop computes the weighted mean in which all features together weigh as one attribute |
| `Parity.ScoreInRange` | pkg/parity/score.go:45-78 | the score is in 0 to 1 and 1 exactly when every counted comparison scores 1 |
| `Parity.ScoreIgnoresOrder` | pkg/parity/score.go:45-78 | the order of the comparisons leaves the score unchanged |
| `Parity.ScoreGrows` | pkg/parity/score.go:45-78 | raising one comparison's score never lowers the whole |
| `Parity.ComputeScore` | pkg/parity/score.go:7-78 | for a compute class: 0.20, 0.15, 0.05 of processor, memory and architecture, 0.10, 0.10, 0.05 of storage size, speed and class, and 0.20 of the fraction of features agreed on, over the weights in play |
| `Parity.DatabaseScore` | pkg/parity/score.go:7-78 | for a database: 0.10, 0.05 of engine and version, 0.20, 0.15, 0.10 of processor, memory and storage size, and 0.20 of the fraction of features agreed on |
| `Parity.StorageScore` | pkg/parity/score.go:7-78 | for storage: 0.10, 0.10, 0.05 of size, speed and class, and 0.20 of the fraction of features agreed on |
| `Parity.NetworkScore` | pkg/parity/score.go:7-78 | for a network: the fraction of features agreed on, or 1 without features |
| `Parity.ParityOf` | pkg/parity/score.go:21-78 | on profiles without negative sizes the overall score is in 0 to 1 and is 1 exactly when the targets agree on every attribute of their class and on every feature with a non-empty key |
| `Parity.ParityByClass` | pkg/parity/score.go:84-163 | full parity, field by field: targets that state the compute, storage or database part of their class state it alike, for a database only engine, version, processor, memory and storage size |
| `Parity.SameFeatureIff` | pkg/parity/score.go:176-194 | targets agree on a feature when all have it switched on or none has |

## Left out

- The tofu subprocess, state and plan file formats, and the file system: a state file is
  unreadable, unparsable or a map of outputs, chosen by the environment at every read.
- The inventory backends, web handlers, authentication, templates, the command line and the
  cloud adapters: input and output plumbing. An apply of a plan rebuilt from inventory is not
  covered, since its rows come back sorted by component name.
- Timestamps, run identifiers, event sinks, log lines, error texts, status badges and the text
  of SVG paths; layouts keep coordinates, paths their corner points.
- Floating-point rounding in parity scores: weights, sizes and scores are exact reals.
- Invalid UTF-8: strings are sequences of code points, on which the lexicographic order agrees
  with Go's byte order. `json.Marshal` of floats and other leaf types enters as an arbitrary
  encoder.
- VarNames.SanitizeIdent: on characters beyond ASCII, which the source replaces byte by byte and
  the model as one; legal component names have none.
- Semaphores.StepKeeps: locking the mutex, the two map lookups and unlocking are one step.
- FanOut.StepKeeps: waiting for the semaphores is a choice between refusal and start; what
  decides it is modelled in `Semaphores`. The `Serial` policy does not occur, as regrouped
  components carry no policy.
- Policies.MaybeRetry: each retry runs one slot to its end before the next, as the code does, so
  the goroutine it uses is not modelled.
- Broker.StepKeeps: one deployment's entry of the subscriber map, its arrays and channels, with
  at most one live publisher; other deployments have entries of their own.
- Phase5.CycleFinder.DetectCycles: on repeated component names it is about the graph of
  positions, in which a name stands for its last position; agreement with the other engines is
  stated for unique names, since two of them reject anything else.
- Planning.Plan: missing project or stack, and the parity reports attached to a plan.
  Placeholders cannot fail and only feed the planning of a target.
- RefValidation.Phase5Refs: the failure on a missing registry.
- Drift.TransitionEvents: the scheduler's clock, its due check and its concurrency limit;
  snapshots are taken as consecutive, with no other writer in between.
- ApplyOrdered.ApplyToposorted: the skip of an ordered target that is not in the plan, which
  cannot happen because the order is a permutation of the plan's targets; state capture and
  outputs after a success, which change no status.
- The unused helpers `hasFailedUpstream` and `anyFailed` (pkg/provisioner/orchestrator.go:185-201):
  the path without a project goes on after a failed component.
