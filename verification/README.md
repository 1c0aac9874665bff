# CoreFlow: verified model

CoreFlow plans and runs LLM agent workflows on a GPU pool. An allocator splits the
context range of each agent into groups of instances and the GPU budget over the
agents; a controller executes each query's dependency graph on the running instances;
per-agent schedulers route requests by prefix cache and migrate caches when a request
outgrows its range. This project models that logic in Dafny and proves what it promises.

`dafny verify dfyconfig.toml` checks everything.

## How the model is laid out

| file | models |
|---|---|
| Collections, StableSort, MaxMin | shared definitions, Python's stable sort, the exchange argument behind both greedy allocators |
| PartitionPlanner, InstanceOrchestrator, PlanOptimality | the layered dynamic program, the instance greedy and `solve`, and how good its plans are |
| WorkflowAllocator, DeviceLauncher | the split over agents, the allocation file, and the slicing of physical devices |
| RequestAnalyzer, ThroughputEstimator | range statistics, the bisection search and the throughput cache |
| WorkflowDag, QueryController, QueryCompletion | the dependency graph protocol, the interleaved completion handlers, and when a query is sure to complete |
| InstanceRegistry, InstanceManager, AllocationLoading | the five registry dictionaries as a value, the object that updates them, and the loading of an allocation |
| PrefixCache, Scheduler | chained block hashes, routing, migration |
| BuildTimeSweep, WorkloadExpander, BadWords | the weighted build time sweep, the workload expander, the bad-word filter |

State that the program updates in place is a class whose methods are tied to a
specification function of the old state; the lemmas are about those functions.
The main results are:

* `solve` is within a factor (n - k) / n of every contiguous partition and every integer
  split (`SolveApproximatesEveryPartition`), because the dynamic program is exact
  (`TableEntryIsExact`) and the greedy is bracketed by the relaxation (`GreedyBracket`).
  Its plans are optimal for a divisible budget (`PlanIsOptimalForDivisibleBudget`); for whole
  instances `SolveOptimalIff` says exactly when its answer is.
* The workflow split is max-min optimal over all splits of the whole budget (`Allocate`),
  uses `solve` only through its monotone curves (`SolveMonotone`), and reaches physical
  devices without loss exactly when every agent can be served (`BudgetReachesDevices`).
* What the allocator planned is what the router uses (`AllocatedPartitionIsRouted`).
* A query can complete exactly when its graph is acyclic (`CompletesIffAcyclic`); the state
  is a function of the set of completed nodes (`DispatchClosedForm`); success of every node
  is sure to complete a query exactly when its payload cannot stall on an unlisted workflow
  key (`CompletionIsCertainIff`).
* The registry stays consistent exactly under compatible re-registration
  (`RegisterValidIffCompatible`); hash hits are shared prefixes (`HitsAreSharedBlocks`);
  migration chains are shorter than the number of ranges (`MigrationChainIsShort`).

## Assumptions

* Throughputs, rates and weighted times are exact reals; `inf` and `-inf` are constructors.
* Throughput cache keys satisfy 0 <= lo < hi <= max index, which
  `AttainInstanceThroughput` establishes. Agent names are distinct.
* The block hash is an arbitrary function, assumed injective and different from `none_hash`
  only on the chain inputs that are compared.
* Node ids such as "3:1" are parsed pairs. Clocks are left out. Network answers, random
  tokens and the latency predictor are parameters.
* A heap pops the least pair (value, index), which is the first index of least value.

## Where code and documentation disagree

* src/coreflow/scheduler.py:205-227: a tie in hash hits is documented as choosing among the
  tied instances; the code chooses among all answering instances in range. The model
  follows the code; `TieCanLoseHits` gives a registry and answers that lose hits, and
  `ChoiceLeadsIff` says exactly when the choice still has the most hits.
* src/coreflow/allocator/instance_orchestrator.py:60-62 calls the result optimal. That holds
  for real-valued shares of the budget (`PlanIsOptimalForDivisibleBudget`). For whole
  instances `SolveCanBeSuboptimal` gives a cache on which it fails, `SolveOptimalIff` the
  exact condition in terms of the instances each partition needs for a rate, and
  `SolveExactWhenUniqueOrWhole` two conditions that are quick to check.
* src/coreflow/allocator/throughput_estimator.py:13-17 and 51-61 promise the maximum
  sustainable rate. Acceptance is not monotone in the rate, so the bisection can miss it even
  with a constant predictor (`SearchCanMissTheMaximum`); `ResultIsNearlyMaximalIff` says exactly
  when it does not, in terms of the acceptance test on the dyadic grid.
* src/coreflow/controller.py:201-202: a query without nodes counts as completed for the
  graph but is never marked complete (`QuiescentCompletesIffAllSucceeded`).
* src/coreflow/dag/dag.py:216 raises KeyError for a workflow key that is not a listed node,
  after the completion has been recorded; such a query can stay incomplete although every
  node was sent out and succeeded (`UnlistedSuccessorStalls`). `CompletionIsCertainIff` says
  exactly for which payloads: the listed graph can run, some unlisted key waits only for
  listed nodes, and none waits only for what listed nodes wait for.
* scripts/generate.py:83: a node with a negative repeat is flagged to keep its cache, but its
  next repeat does not look at it. Reuse is guaranteed exactly for repeats from 0 on and for
  next repeats with nothing cached (`AlwaysReusedIffSafe`).

## Model

| member | source | states |
|---|---|---|
| `MaxMin.GrowKeepsBalance` | src/coreflow/allocator/workflow_allocator.py:136-142 | giving one unit to a bottleneck keeps every recipient, with one unit taken away, at or below everybody else |
| `MaxMin.BalancedIsMaxMin` | src/coreflow/allocator/workflow_allocator.py:34-40 | any rival split of the same total has a member no better off than everybody in a balanced split |
| `MaxMin.ArgMinIsLeast` | src/coreflow/allocator/instance_orchestrator.py:179-185 | the popped index has the least value, and strictly less than every earlier one |
| `MaxMin.GreedyIsMaxMin` | src/coreflow/allocator/instance_orchestrator.py:178-188 | for nondecreasing curves the greedy's least value is at least that of every positive split of the same total |
| `MaxMin.GreedyGrowsByOne` | src/coreflow/allocator/instance_orchestrator.py:182-185 | one more unit changes exactly one count by one and never lowers the least value |
| `PartitionPlanner.GroupTransitions` | src/coreflow/allocator/instance_orchestrator.py:103-108 | the buckets hold, per upper index, exactly the positive-throughput items in cache order |
| `PartitionPlanner.RelaxState` | src/coreflow/allocator/instance_orchestrator.py:120-129 | after the inner loop the entry and its parent are those of the least-cost label; no other parent changes |
| `PartitionPlanner.FillTable` | src/coreflow/allocator/instance_orchestrator.py:110-129 | every table entry and parent record agrees with the least-cost label of its state |
| `PartitionPlanner.NoChainIsCheaper` | src/coreflow/allocator/instance_orchestrator.py:96-129 | every k-step chain makes its entry finite and costs at least as much |
| `PartitionPlanner.TraceAttainsBest` | src/coreflow/allocator/instance_orchestrator.py:144-164 | following parents from a finite entry gives a k-step chain whose cost is that entry |
| `PartitionPlanner.TableEntryIsExact` | src/coreflow/allocator/instance_orchestrator.py:96-129 | an entry is infinite exactly when no k-step chain exists, otherwise it is the least cost over all of them |
| `PartitionPlanner.ReconstructScheme` | src/coreflow/allocator/instance_orchestrator.py:144-164 | for any parent dictionary: the walked scheme, or empty when the walk breaks off or misses the origin |
| `PartitionPlanner.WalkBackIsTrace` | src/coreflow/allocator/instance_orchestrator.py:131-164 | with recorded parents the walk succeeds exactly from finite entries and spells out their chain |
| `PartitionPlanner.BuildPartitionPlans` | src/coreflow/allocator/instance_orchestrator.py:91-142 | a plan is recorded for exactly the feasible group counts |
| `PartitionPlanner.PlanIsOptimalPartition` | src/coreflow/allocator/instance_orchestrator.py:131-142 | a plan exists exactly when some k-cell partition does, is one itself, and costs least among them |
| `InstanceOrchestrator.AllocateInstancesGreedily` | src/coreflow/allocator/instance_orchestrator.py:166-198 | one group per cell in order, the greedy counts, and a throughput that is the least of instances times throughput over the returned groups |
| `InstanceOrchestrator.GreedyIsMaxMinForScheme` | src/coreflow/allocator/instance_orchestrator.py:166-198 | for a fixed scheme no other count vector with the same total has a higher least rate |
| `InstanceOrchestrator.OneMoreInstance` | src/coreflow/allocator/instance_orchestrator.py:182-185 | counts for n + 1 extend counts for n at exactly one group and are no slower |
| `InstanceOrchestrator.GreedyBracket` | src/coreflow/allocator/instance_orchestrator.py:178-188 | n - k <= M * S <= n for the greedy value M and total inverse throughput S |
| `InstanceOrchestrator.SplitBelowRelaxation` | src/coreflow/allocator/instance_orchestrator.py:23-28 | every integer split of any scheme is at most the relaxed optimum n / S |
| `InstanceOrchestrator.BestForBudget` | src/coreflow/allocator/instance_orchestrator.py:72-87 | the loop over group counts gives the best considered assignment |
| `InstanceOrchestrator.BestOverIsMax` | src/coreflow/allocator/instance_orchestrator.py:74-87 | the kept assignment is at least everything considered and is one of them, or empty |
| `InstanceOrchestrator.Solve` | src/coreflow/allocator/instance_orchestrator.py:45-89 | the curve has exactly the GPU counts 0 .. budget, each with its solved assignment, backed up by its own groups |
| `InstanceOrchestrator.SolveIsBackedUp` | src/coreflow/allocator/instance_orchestrator.py:187-197 | every returned group is a cell of the cache, and the reported throughput is what the slowest returned group runs at |
| `InstanceOrchestrator.SolveApproximatesEveryPartition` | src/coreflow/allocator/instance_orchestrator.py:45-198 | n * T >= (n - k) * min_j c_j * t_j for every partition into a permitted number of groups and every positive split |
| `InstanceOrchestrator.SolveMonotone` | src/coreflow/allocator/instance_orchestrator.py:71-89 | more GPUs never lower the solved throughput, which is never negative |
| `InstanceOrchestrator.SolvePositiveIffFeasible` | src/coreflow/allocator/instance_orchestrator.py:71-89 | positive throughput exactly when some permitted partition exists; the groups then tile the range and spend every whole instance |
| `PlanOptimality.PlanIsOptimalForDivisibleBudget` | src/coreflow/allocator/instance_orchestrator.py:23-28 | on real-valued shares the plan runs all its groups at n / S, and no partition into as many cells can run any faster |
| `PlanOptimality.GreedyReachesIff` | src/coreflow/allocator/instance_orchestrator.py:166-198 | the greedy reaches a rate exactly when it has the sum of rounded-up instances the partition needs for it |
| `PlanOptimality.SolveReachesIff` | src/coreflow/allocator/instance_orchestrator.py:45-89 | `solve` reaches a rate exactly when some least-cost plan gets by with the instances it needs for it |
| `PlanOptimality.SolveOptimalIff` | src/coreflow/allocator/instance_orchestrator.py:56-62 | `solve` is optimal for whole instances exactly when every rate some permitted partition can reach is one that a plan can reach |
| `PlanOptimality.SolveExactWhenUniqueOrWhole` | src/coreflow/allocator/instance_orchestrator.py:56-62 | `solve` is optimal when for each group count the partition is unique or the plan's relaxed shares are whole |
| `PlanOptimality.SolveCanBeSuboptimal` | src/coreflow/allocator/instance_orchestrator.py:56-62 | a cache and budget on which `solve` answers 1.9 although another partition runs at 2.0 |
| `WorkflowAllocator.NormalizedThroughputs` | src/coreflow/allocator/workflow_allocator.py:165-179 | each value times the agent's invocations is its solved throughput; 0 without invocations |
| `WorkflowAllocator.PickBottleneck` | src/coreflow/allocator/workflow_allocator.py:136-139 | the least throughput, and the least name among equals |
| `WorkflowAllocator.NormalizedMonotone` | src/coreflow/allocator/workflow_allocator.py:165-179 | normalized curves are nondecreasing in GPUs |
| `WorkflowAllocator.BalancedSharesAreBest` | src/coreflow/allocator/workflow_allocator.py:119-142 | balanced shares beat every split of the budget into positive multiples of the step |
| `WorkflowAllocator.HandOutBudget` | src/coreflow/allocator/workflow_allocator.py:119-142 | the loop ends with a split of the whole budget that no other split beats, after budget / step - agents rounds |
| `WorkflowAllocator.AllocateChecked` | src/coreflow/allocator/workflow_allocator.py:100-162 | reported throughputs times invocations are the curves' values at the reported shares, and every other split leaves some agent that allows for no more workflow runs than the reported minimum |
| `WorkflowAllocator.Allocate` | src/coreflow/allocator/workflow_allocator.py:86-162 | each error exactly under its condition and in order; otherwise the max-min optimal split |
| `DeviceLauncher.StartGroup` | scripts/start_instances_from_allocation.py:150-192 | each instance gets its own slice and the next port, or the file so far needs more than the pool |
| `DeviceLauncher.Start` | scripts/start_instances_from_allocation.py:139-192 | the launch succeeds exactly when the pool covers the file; slices then tile the front of the pool in file order |
| `DeviceLauncher.NoDeviceSharedTwice` | scripts/start_instances_from_allocation.py:157-158 | with distinct devices none is handed out twice |
| `DeviceLauncher.AgentUsesItsShare` | scripts/allocate.py:129-142 | the written groups stand for the solved ones one by one, and need exactly the agent's GPUs when its solved throughput is positive, none otherwise |
| `DeviceLauncher.BudgetReachesDevices` | scripts/allocate.py:124-145 | the written file fits on as many devices as were split, and uses all exactly when every agent is served |
| `WorkflowDag.BuildPayload` | src/coreflow/dag/dag.py:163-194 | distinct keys in first-seen order, the last parent list of each, ids of the node list |
| `WorkflowDag.Dag.DispatchLoop` | src/coreflow/dag/dag.py:209-219 | the eligible waiting nodes become executing and are returned in workflow order, up to the first unlisted key, which raises |
| `WorkflowDag.AttemptDispatches` | src/coreflow/dag/dag.py:209-219 | it never raises when unlisted keys also wait for unlisted ones, and then dispatches everything eligible |
| `WorkflowDag.Dag.GetEntryNodes` | src/coreflow/dag/dag.py:227-240 | waiting nodes without dependencies are dispatched, with the same KeyError |
| `WorkflowDag.Dag.UpdateResult` | src/coreflow/dag/dag.py:196-225 | an unknown node changes nothing; otherwise the node is executed and finished and the dispatch loop runs, with its KeyError |
| `WorkflowDag.DispatchClosedForm` | src/coreflow/dag/dag.py:196-240 | after any legal run, duplicates included, statuses follow from the executed set, which is closed under parents; returned nodes are exactly the ready ones, each once |
| `WorkflowDag.OrderIndependence` | src/coreflow/dag/dag.py:196-240 | runs completing the same nodes end in the same state with the same nodes returned |
| `WorkflowDag.SomeNodeIsExecuting` | src/coreflow/dag/dag.py:196-243 | an acyclic incomplete query always has an executing node, whose completion is a legal next event |
| `WorkflowDag.MaximalRunCompletes` | src/coreflow/dag/dag.py:196-243 | completed exactly when nothing executes, and exactly after node-count distinct completions, which no run exceeds |
| `WorkflowDag.CompleteTheRun` | src/coreflow/dag/dag.py:196-243 | every legal run of an acyclic query is the beginning of one that completes |
| `WorkflowDag.CompletesIffAcyclic` | src/coreflow/dag/dag.py:163-243 | some legal run completes exactly when the graph is acyclic |
| `QueryController.QueryState.Execute` | src/coreflow/controller.py:149-154 | starting a query dispatches its entry nodes; a KeyError is recorded as error |
| `QueryController.QueryState.HandleNodeComplete` | src/coreflow/controller.py:156-199 | the handler's segment up to its first suspension, including failure reports |
| `QueryController.QueryState.ResumeHandler` | src/coreflow/controller.py:182-207 | the segments after the migration and scheduling awaits |
| `QueryController.StepKeepsInv` | src/coreflow/controller.py:149-207 | every step keeps: executed nodes reported success, pending successes are with a suspended handler, completed means all executed |
| `QueryController.EveryRunKeepsInv` | src/coreflow/controller.py:149-207 | the same under every interleaving |
| `QueryController.CompletedNeedsEverySuccess` | src/coreflow/controller.py:176-202 | a completed query has a success report from every node |
| `QueryController.CompletedIsFinal` | src/coreflow/controller.py:201-202 | completion is never undone |
| `QueryController.FailedIff` | src/coreflow/controller.py:130-179 | the error is set exactly after a failure report, a failed dispatch or an entry dispatch that raises |
| `QueryController.QuiescentCompletesIffAllSucceeded` | src/coreflow/controller.py:156-207 | with no suspended handler, completed only when there are nodes and all reported success, and exactly then unless an unlisted workflow key can become ready |
| `QueryCompletion.EveryRunSendsSoundly` | src/coreflow/controller.py:149-207 | in every run in which only sent-out nodes report, the nodes sent out are ready and ranked, and no unlisted key waits only for what they wait for |
| `QueryCompletion.CompletionIsCertainIff` | src/coreflow/controller.py:156-207 | over those runs success of every node completes the query exactly unless the payload can stall: the listed graph is complete and acyclic, some unlisted key waits only for listed nodes, none only for what listed nodes wait for |
| `QueryCompletion.UnlistedSuccessorStalls` | src/coreflow/dag/dag.py:209-219 | one listed node and an unlisted key waiting for it: started, reported, never complete |
| `InstanceRegistry.WithSlotConsistent` | src/coreflow/instance_manager.py:110-124 | slots stay 0 .. m - 1 in bijection with ranges, and existing ones do not change |
| `InstanceRegistry.RegisterValidIffCompatible` | src/coreflow/instance_manager.py:60-103 | a registration keeps all five indexes consistent exactly when the id is new or keeps its agent and any listed range |
| `InstanceRegistry.SetStatusValid` | src/coreflow/instance_manager.py:105-108 | status changes keep consistency |
| `InstanceRegistry.RemoveValid` | src/coreflow/instance_manager.py:193-205 | removal keeps consistency and removes the id |
| `InstanceRegistry.RunsStayConsistent` | src/coreflow/instance_manager.py:60-205 | any run of compatible operations keeps all indexes consistent and never changes a slot's range |
| `InstanceRegistry.RunsExplainRegistry` | src/coreflow/instance_manager.py:60-205 | over any run: registered exactly when a registration has not been removed since, with that registration's data, open ports 8000, 8001, ... in order, and the status of the last operation on the id |
| `InstanceRegistry.OpLeavesOthers` | src/coreflow/instance_manager.py:60-205 | an operation on one id leaves every other instance as it is |
| `InstanceRegistry.SecondPassFindsNothing` | src/coreflow/instance_manager.py:169-178 | the second search pass never finds what the first missed, and its lookups never miss |
| `InstanceRegistry.RegisterSlots` | src/coreflow/instance_manager.py:94-124 | a known range adds no slot, a new one gets the next |
| `InstanceRegistry.SlotList` | src/coreflow/instance_manager.py:110-124 | a consistent registry lists each agent's ranges by slot without repetition |
| `InstanceManager.Manager.Register` | src/coreflow/instance_manager.py:60-103 | the whole new registry value and the returned info |
| `InstanceManager.Manager.NextFreeSlot` | src/coreflow/instance_manager.py:117-121 | one more than the greatest existing slot, 0 without any |
| `InstanceManager.Manager.Remove` | src/coreflow/instance_manager.py:193-205 | the whole new registry value |
| `InstanceManager.Manager.GetInstancesForAgent` | src/coreflow/instance_manager.py:132-134 | exactly the agent's ready instances, each once |
| `InstanceRegistry.ReadyListedIffReadyIn` | src/coreflow/instance_manager.py:136-142 | a slot's context list names exactly the ready instances serving its range, each once |
| `InstanceManager.Manager.GetInstancesForContext` | src/coreflow/instance_manager.py:136-142 | exactly the ready instances serving the slot's range, each once, in list order |
| `InstanceManager.Manager.FindContextSlot` | src/coreflow/instance_manager.py:156-178 | the least slot whose range holds the length, None exactly when no slot does |
| `AllocationLoading.InstanceIdInjective` | src/coreflow/controller.py:98-105 | names of planned instances are distinct even when agent names contain dashes |
| `AllocationLoading.LoadAllocation` | src/coreflow/controller.py:88-108 | the registry after registering every planned stub in file order |
| `AllocationLoading.LoadFileValidIff` | src/coreflow/controller.py:88-108 | loading any file keeps all indexes consistent exactly when planned instances of the same name have the same agent and range |
| `AllocationLoading.LoadedStubsAreNotReady` | src/coreflow/controller.py:72-108 | exactly the planned instances are registered and none of them is ready |
| `AllocationLoading.LaunchedArePlanned` | scripts/start_instances_from_allocation.py:139-165 | what the launcher starts from a file is, in order, what the controller planned: same names, agents, ranges and GPUs |
| `AllocationLoading.AnnouncedAreReady` | src/coreflow/controller.py:264-276 | after loading, a process that registers is ready under its stub's name, on its own port and for its own range |
| `AllocationLoading.NegativeBoundNamesCollide` | src/coreflow/controller.py:98-105 | with a negative bound two planned names can coincide |
| `AllocationLoading.LoadedSlots` | src/coreflow/controller.py:88-108 | after loading, the slots of an agent whose groups tile a range are its groups in file order |
| `AllocationLoading.PartitionSurvivesToRouting` | src/coreflow/instance_manager.py:156-178 | the slot found is the unique group containing the length, None exactly outside the tiled range |
| `AllocationLoading.SolvedGroupsTile` | src/coreflow/allocator/instance_orchestrator.py:144-198 | what `solve` returns tiles the context range with at least one instance per group |
| `AllocationLoading.AllocatedPartitionIsRouted` | src/coreflow/controller.py:88-108 | for every split of the budget and served agent, the loaded registry routes each length to its planned group |
| `PrefixCache.ComputeRequestBlockHashes` | src/coreflow/scheduler.py:68-97 | the chained hashes of the whole blocks |
| `PrefixCache.CountHashHits` | src/coreflow/scheduler.py:99-117 | the number of leading hashes in the union of both caches |
| `PrefixCache.ChainOfPrefix` | src/coreflow/scheduler.py:73-97 | hashing a prefix gives a prefix of the hashes |
| `PrefixCache.EqualHashesEqualPrefixes` | src/coreflow/scheduler.py:81-95 | without collisions equal chain hashes mean equal positions and equal prefixes |
| `PrefixCache.HitsAreSharedBlocks` | src/coreflow/scheduler.py:68-117 | the hit count is the largest number of whole blocks shared as a prefix with a cached sequence |
| `Scheduler.DecisionOrder` | src/coreflow/scheduler.py:152-234 | None exactly without exact entry and hash base; an exact entry wins at least load; a sole leader in hits wins |
| `Scheduler.HitsAreLongestShared` | src/coreflow/scheduler.py:99-117 | an answer's hits are the longest whole-block prefix the instance holds on GPU and CPU together, at the answer's block size |
| `Scheduler.LongestPrefixIsRouted` | src/coreflow/scheduler.py:176-208 | a sole instance sharing the longest prefix, on either device, is the one routed to |
| `Scheduler.ChoiceLeadsIff` | src/coreflow/scheduler.py:195-234 | the choice has the most hits exactly with a sole leader, with nobody in range, or when the first least-loaded instance in range has the most hits |
| `Scheduler.TieCanLoseHits` | src/coreflow/scheduler.py:205-227 | a consistent registry with two ranges and answers on which the chosen instance has fewer hits than another |
| `Scheduler.AgentScheduler.Route` | src/coreflow/scheduler.py:140-234 | remembered answers and the decision, on the slot and ready instances of the input length |
| `Scheduler.AgentScheduler.BeginMigration` | src/coreflow/scheduler.py:248-283 | the candidates are exactly the legitimate targets, each once, in list order; and which of them have no known state |
| `Scheduler.AgentScheduler.ChooseTarget` | src/coreflow/scheduler.py:284-306 | the answers are remembered; the target is the first least-loaded candidate whose state is known by then, none exactly without one |
| `Scheduler.AgentScheduler.ConcludeMigration` | src/coreflow/scheduler.py:318-342 | an accepted migration drops the target's remembered state, anything else changes nothing |
| `Scheduler.HopClimbs` | src/coreflow/scheduler.py:255-274 | a migration goes to another instance whose range holds the length and ends strictly higher |
| `Scheduler.MigrationChainIsShort` | src/coreflow/scheduler.py:248-342 | successive migrations never revisit a range and are fewer than the agent's ranges |
| `BuildTimeSweep.CollectEvents` | src/vllm/tools/report_build_time_ninja.py:206-219 | one start and one stop per target; for nonnegative times the least start and the greatest end |
| `BuildTimeSweep.AdvanceClock` | src/vllm/tools/report_build_time_ninja.py:239-243 | the clock update adds exactly the shares of the ticks between two events |
| `BuildTimeSweep.Begin` | src/vllm/tools/report_build_time_ninja.py:244-246 | a start event keeps the sweep invariant |
| `BuildTimeSweep.Finish` | src/vllm/tools/report_build_time_ninja.py:247-254 | a stop event keeps the sweep invariant, recording the target's share sum |
| `BuildTimeSweep.Sweep` | src/vllm/tools/report_build_time_ninja.py:228-255 | every weighted duration is its per-tick share sum, the total is their sum, nothing is left running |
| `BuildTimeSweep.AccumulatedBounds` | src/vllm/tools/report_build_time_ninja.py:74-89 | a weighted duration is between 0 and the duration |
| `BuildTimeSweep.SweepConservesTime` | src/vllm/tools/report_build_time_ninja.py:220-255 | weighted durations total exactly the ticks at which something runs |
| `BuildTimeSweep.WeightedTimes` | src/vllm/tools/report_build_time_ninja.py:206-255 | all of this for every list of targets with start <= end |
| `RequestAnalyzer.GroupRecords` | src/coreflow/allocator/request_analyzer.py:150-156 | the loop builds the grouping |
| `RequestAnalyzer.GroupingKeepsLatest` | src/coreflow/allocator/request_analyzer.py:150-156 | per invocation and repeat exactly the agent's latest record is kept |
| `RequestAnalyzer.GroupingIsDistinct` | src/coreflow/allocator/request_analyzer.py:150-156 | one group per invocation, one entry per repeat |
| `RequestAnalyzer.RepeatsInOrder` | src/coreflow/allocator/request_analyzer.py:161-164 | the calls of an invocation come in strictly increasing repeat order |
| `RequestAnalyzer.CountInvocation` | src/coreflow/allocator/request_analyzer.py:163-198 | the loop over repeats adds exactly the invocation's totals |
| `RequestAnalyzer.ComputeRangeStats` | src/coreflow/allocator/request_analyzer.py:130-230 | over the in-range calls of all the agent's invocations: rounded-down averages of outputs, inputs and cached tokens with and without reuse, the greatest length, runs per call, and the share of invocations in range |
| `RequestAnalyzer.StatsDescribeRange` | src/coreflow/allocator/request_analyzer.py:200-230 | the same, of the accumulators |
| `RequestAnalyzer.CallsCarryTheirRecords` | src/coreflow/allocator/request_analyzer.py:158-170 | a call carries its record's amounts, numbers as they are and lists by their sum |
| `RequestAnalyzer.OutCountsRuns` | src/coreflow/allocator/request_analyzer.py:163-198 | the out counter is the number of maximal in-range runs; invocations in range <= out <= calls |
| `RequestAnalyzer.AveragesBelowMaximum` | src/coreflow/allocator/request_analyzer.py:200-230 | the three averages sum to at most the maximum length, with or without reuse; proportions are in [0, 1] |
| `RequestAnalyzer.Analyzer.GetRequestsInRange` | src/coreflow/allocator/request_analyzer.py:117-128 | remembered or not, the answer equals recomputation and describes the in-range calls, and exactly the asked key is remembered |
| `ThroughputEstimator.AnalyzeThroughput` | src/coreflow/allocator/throughput_estimator.py:63-139 | the exact condition for a division by zero; otherwise 0 or an accepted rate, with a rejected rate or the cap exactly one final width above |
| `ThroughputEstimator.WidthIsPower` | src/coreflow/allocator/throughput_estimator.py:71-75 | after n halvings the width is exactly 20 / 2^n |
| `ThroughputEstimator.AcceptsIffServed` | src/coreflow/allocator/throughput_estimator.py:77-137 | a rate is accepted exactly when swapping and prefilling leave part of the second and the tokens of the second exceed the demand; the clamps never matter |
| `ThroughputEstimator.AcceptsByNumbers` | src/coreflow/allocator/throughput_estimator.py:63-137 | the acceptance test over the workload's and the instance's own fields, with every rounding said as a bracket |
| `ThroughputEstimator.AcceptedFitsInASecond` | src/coreflow/allocator/throughput_estimator.py:77-119 | prefill, swap and decode time of an accepted rate fit in one second |
| `ThroughputEstimator.ResultLeavesSwapRoom` | src/coreflow/allocator/throughput_estimator.py:77-81 | rate * swap latency < 1 for every result |
| `ThroughputEstimator.ResultIsNearlyMaximalIff` | src/coreflow/allocator/throughput_estimator.py:51-75 | the result is within the final width of every sustainable rate up to the cap exactly when no cell of the dyadic grid hides the highest sustainable rates in its upper half behind a rejected midpoint |
| `ThroughputEstimator.SearchCanMissTheMaximum` | src/coreflow/allocator/throughput_estimator.py:51-137 | a constant predictor with which 10 is turned down and 15 is sustainable |
| `ThroughputEstimator.AttainInstanceThroughput` | src/coreflow/allocator/throughput_estimator.py:167-200 | fails exactly when the search divides by zero for some range that decodes; otherwise an entry for exactly the ranges that decode, in loop order, each the scaled searched rate |
| `ThroughputEstimator.FilledIsPlannable` | src/coreflow/allocator/throughput_estimator.py:167-200 | keys are distinct with 0 <= lo < hi <= max index, values nonnegative |
| `ThroughputEstimator.EntryIsScaledRate` | src/coreflow/allocator/throughput_estimator.py:182-198 | an entry times the share of invocations in range is the rate searched for the averages times the share of finished runs |
| `WorkloadExpander.ExpandRecord` | scripts/generate.py:70-126 | exact input and output lengths, the reused prefix first, flags by the direct-repeat rule |
| `WorkloadExpander.BuildWorkload` | scripts/generate.py:57-126 | records in key order, each expanded from what its invocation left behind and the token stream; names, counts and lengths are the record's; a cache is kept exactly when the next repeat waits for the node alone and has no more cached than the node's own tokens; safely kept caches are reused |
| `WorkloadExpander.KeptCacheIsReused` | scripts/generate.py:82-112 | a node flagged to keep its cache, with repeat 0 or above or nothing cached next, is followed by its next repeat, whose cached part equals the same prefix of this node's input and output |
| `WorkloadExpander.ReusedIffSafe` | scripts/generate.py:82-112 | that condition is exact for every kept node on every token stream on which the two first tokens compared differ |
| `WorkloadExpander.AlwaysReusedIffSafe` | scripts/generate.py:30-112 | a kept cache is reused whatever tokens from 0 to 1023 are drawn exactly under that condition |
| `BadWords.Processor.CheckTokenIdsBounds` | src/vllm/vllm/logits_process.py:105-119 | accepted exactly when every token id is in the vocabulary |
| `BadWords.Processor.InitWordBias` | src/vllm/vllm/logits_process.py:88-103 | minus infinity at exactly the one-token words; unset after an error |
| `BadWords.Processor.LastTokenBias` | src/vllm/vllm/logits_process.py:64-82 | minus infinity at exactly the tokens completing a longer word; an empty word is an error |
| `BadWords.Processor.Call` | src/vllm/vllm/logits_process.py:56-86 | exactly the completing tokens are suppressed, every other logit is unchanged |
| `BadWords.SampledIffClean` | src/vllm/vllm/logits_process.py:56-103 | an output sampled from unsuppressed tokens contains no listed nonempty word, and conversely |
| `BadWords.Generate` | src/vllm/vllm/logits_process.py:56-103 | a generation takes exactly the sampled tokens before the first that is suppressed, and stays free of listed words |

## Left out

- HTTP, FastAPI and asyncio plumbing, process launching and health checks: I/O only; suspension points are kept as steps.
- SHA-256 and Python's `repr`: an arbitrary hash function instead.
- Float rounding, NaN and plus infinity: exact reals and minus infinity only.
- Latency predictors and profilers: an arbitrary function of batch and lengths.
- `avg_num_invocations`, `AgentAllocator`, `Query`, configuration and command lines: data or thin wrappers; invocation averages are parameters.
- `find_alternative`, `get_context_range_for_slot` and `dispatch`: direct lookups that would only add easy members.
- Parsing of node ids, JSON and the ninja log, and the printed reports: text handling only.
- Node and InstanceInfo objects are values held in maps, so aliasing of the returned objects is not modelled.
- One query at a time: queries share no state besides the registry. A migration that raises instead of returning, and client disconnects, are not steps.
- BuildTimeSweep.WeightedTimes: times are integer milliseconds, not seconds as floats.
- Scheduler.MigrationChainIsShort: the chain starts on an instance of the scheduler's own agent.
- vLLM outside the two modelled files: bindings, build scripts, clients and finite tables.
