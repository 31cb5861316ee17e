# A verified model of CADGenesis scheduling, formats, adapters and ledgers

This project models the parts of CADGenesis that order dependent work, distribute
it, serialise it, transform weights and keep stores that must agree with their
history, and proves what they promise for all inputs, all runs or all reachable
states. `dafny verify dfyconfig.toml` checks everything.

**Dependency graphs.** Four components order dependent work, each with its own
algorithm, over one theory of graphs (`Graphs.dfy`): chains, cycles, topological
orders and depths. A closed graph has a topological order exactly when it has no
cycle. `Kahn.dfy` holds the counters and queues that two of them share.

* `TaskGraphs.dfy` and `LongestChains.dfy`: the task graph with Kahn's test on a
  stack, the smallest-id-first order, and the critical path by dynamic programming.
* `DagSchedulers.dfy` and `DagRuns.dfy`: the wave executor with retries, deadlines
  and skips. The methods change the nodes in place; `DagRuns.Final` states the final
  state of every run as a rule for each node, from which the other results follow.
* `AgentTasks.dfy`: the batch scheduler and the coordinator that drives it to its
  fixpoint.
* `Workflows.dfy`: stage order, required and optional stages, checkpoints.
* `ResearchPlans.dfy`: depth-first ordering that terminates on cyclic plans too.

**Allocation and queues.** `LoadBounds.dfy` and `LoadBalancers.dfy` prove Graham's
bound for longest-processing-time-first. `Heaps.dfy` is a binary heap in a list, as
`heapq` keeps it, proved to stand for an ordered queue; `DeadlineSchedulers.dfy` and
`EventBuses.dfy` use it.

**TOON.** `PythonStrings.dfy`, `Toon.dfy`, `ToonDelimiters.dfy` and `ToonExtended.dfy`:
printing, parsing, delimiters, schema lines and chunking, with the exact conditions for
a round trip.

**Weights.** `Matrices.dfy`, `LowRank.dfy`, `Adapters.dfy` and `AdapterRuns.dfy`:
attaching, training and merging low-rank adapters, over matrices of exact reals.
`Quantization.dfy` and `QuantizedModels.dfy`: int8 quantization of rows and the fold
back into plain layers.

**Stores with a history.** `MemoryRuns.dfy`, `MemoryRegions.dfy` and
`SharedMemories.dfy`: memory bounded by capacity and time to live, against the history
of its operations. `CreditLedgers.dfy`: balances against an append-only log.

`Seqs.dfy` and `Results.dfy` hold what all of them need: duplicate-freedom, the
pigeonhole principle, stable sorting, options and results.

Clocks, the outcome of each attempt, random initial weights and Python's number
conversions are parameters. What a loop in the source computes is proved of a method
with that loop; classes in the source are classes here, changed in place.

## Findings

* `TaskGraph.is_acyclic` counts listed dependencies but releases distinct ones, so it
  rejects an acyclic graph in which some dependency list repeats an entry. It answers
  true exactly for graphs without cycles and without repeated entries
  (`TaskGraphs.TaskGraph.IsAcyclic`); `TaskGraphs.RepeatedDependencyRefused` builds the
  smallest such graph. `has_cycles` and `_get_execution_order` do not have this flaw.
* The second "cycle" error of `topological_order` cannot be reached
  (`TaskGraphs.SmallestFirst`).
* A node that succeeds on a later attempt keeps the error text of the failed one
  (`DagRuns.ErrorStaysAfterSuccess`); a completed node carries no error exactly when its
  first attempt succeeded or the last failure had no text
  (`DagRuns.CompletedWithoutErrorExactly`). With a negative limit of retries a node fails
  without any attempt (`DagRuns.AttemptsStop`).
* TOON text loses objects when a row is empty and last or has no fields
  (`ToonDelimiters.LastEmptyRowIsLost`), and values with line boundaries other than
  `"\n"`; `Toon.RoundTripExactly` has the exact condition. A delimiter keeps all plain
  objects exactly when it is one character other than `\`, `n` and the line boundaries
  (`ToonDelimiters.DelimiterExactly`).
* The schema-line heuristic of the extended parser drops a first row made only of type
  words (`ToonExtended.PlainReads`), also at the start of a later chunk
  (`ToonExtended.TypeWordChunkIsLost`), and chunks after the first lose the types of the
  schema line; `ToonExtended.ChunkingIsTransparent` says exactly when chunking changes
  nothing. A schema line gives the types it was written for exactly when they are type
  words without the delimiter (`ToonExtended.SchemaGivesTypesExactly`); any other is read
  as objects or as other types (`ToonExtended.WrittenReads`), such as a line of `str` when
  the delimiter is a letter of that word (`ToonExtended.SchemaProtects`).
* Merging an adapter keeps what a layer computes exactly when the other updates folded
  into its weight cancel out (`Adapters.MergeKeepsFunctionExactly`). One layer in two
  slots of an adapter, or two layers that share their weight, are both changed
  (`Adapters.TiedWeightChanges`); `AdapterRuns.MergeShared` attaches, trains and merges
  the smallest such model.
* Merging an adapter while another one is active takes the active wrappers out of the
  slots that both have, and the name of the active adapter stays. The active adapter
  stays in its slots exactly when no other one is active or the two share no slot
  (`Adapters.PEFTAdapter.Merge`, `Adapters.StaysWiredExactly`).
* Requantizing a dequantized row gives the same integers and scale for every row, also
  for rows below the smallest scale.
* With equal clock readings a memory region may push out a key before as many other keys
  were written as it has room for (`MemoryRuns.EqualTimesEvictTooEarly`). A write can
  lead to this exactly when another key would still rank as newer, which can be seen
  before the write (`MemoryRuns.SafeExactly`); with a clock that does not run backwards,
  exactly when the key is held and a key behind it in the dictionary carries the current
  reading (`MemoryRuns.SafeUnderSteadyClock`).
* A negative amount added to an account may take its balance below zero
  (`CreditLedgers.NegativeAdditionOverdraws`); one operation does so exactly when it adds
  more negative credit than the account holds (`CreditLedgers.StaysNonNegative`).

## Model

| member | source | states |
|---|---|---|
| Graphs.AcyclicIffOrder | src/cadgenesis/agents/scheduling.py:134-149 | a closed graph has an order in which every node follows its dependencies exactly when no dependency chain closes a cycle |
| Graphs.ExhaustedDecides | src/cadgenesis/agents/scheduler.py:161-168 | when Kahn's queue runs dry, all nodes were taken exactly when the graph is closed and has no cycle, and then the order taken is topological |
| Graphs.StuckMeansCyclic | src/cadgenesis/agents/scheduling.py:142-143 | nodes that all wait on one another contain a cycle |
| Graphs.DepthAttained | src/cadgenesis/agents/scheduling.py:287-300 | the depth of a node is the length of some chain that ends in it |
| Graphs.DepthBounds | src/cadgenesis/agents/scheduling.py:287-300 | no chain that ends in a node is longer than its depth |
| Graphs.LeastOrderUnique | src/cadgenesis/agents/scheduling.py:138-149 | a graph has at most one lexicographically least topological order |
| Graphs.StrLeqExactly | src/cadgenesis/agents/scheduling.py:138-149 | ids are compared as texts: a beginning comes first, otherwise the smaller character where two texts first differ |
| TaskGraphs.TaskGraph.Add | src/cadgenesis/agents/scheduling.py:84-91 | a duplicate id or an unknown dependency is refused and nothing changes; otherwise exactly one node is added |
| TaskGraphs.TaskGraph.AddDependency | src/cadgenesis/agents/scheduling.py:93-98 | an edge between two known nodes is added once; with an unknown node nothing changes |
| TaskGraphs.KahnTest | src/cadgenesis/agents/scheduling.py:120-132 | the stack-driven test is true exactly for closed, duplicate-free graphs without a cycle |
| TaskGraphs.TaskGraph.IsAcyclic | src/cadgenesis/agents/scheduling.py:120-132 | on every reachable graph: true exactly when there is no cycle and no repeated dependency |
| TaskGraphs.RepeatedDependencyRefused | src/cadgenesis/agents/scheduling.py:84-132 | a graph of two nodes built by add, without a cycle but with a dependency listed twice, fails the test |
| TaskGraphs.SmallestFirst | src/cadgenesis/agents/scheduling.py:138-149 | the loop never runs out of ready nodes and returns the lexicographically least topological order |
| TaskGraphs.TaskGraph.TopologicalOrder | src/cadgenesis/agents/scheduling.py:134-149 | the least topological order when the test passes, the cycle error otherwise |
| LongestChains.TableBounds | src/cadgenesis/agents/scheduling.py:158-162 | no chain from a dependency-free node (no chain at all when costs are non-negative) costs more than the table says for its last node |
| LongestChains.FirstMaxIsFirst | src/cadgenesis/agents/scheduling.py:158-176 | of the entries with the largest value the first is taken |
| LongestChains.BackTrack | src/cadgenesis/agents/scheduling.py:166-176 | the path followed backwards, always to the first of the costliest dependencies, is a dependency chain from a dependency-free node whose cost is the table entry of its end |
| LongestChains.FindCriticalPath | src/cadgenesis/agents/scheduling.py:158-177 | a genuine chain with the returned cost that no other chain exceeds; empty and zero for the empty graph |
| TaskGraphs.TaskGraph.CriticalPath | src/cadgenesis/agents/scheduling.py:151-177 | the same for the graph object, and the cycle error exactly when the test fails |
| TaskGraphs.TaskGraph.ReadyNodes | src/cadgenesis/agents/scheduling.py:179-188 | exactly the pending nodes all of whose dependencies are completed |
| DagRuns.AttemptsStop | src/cadgenesis/agents/scheduling.py:329-352 | a node uses between one and the limit of attempts, stops at the first success, and is completed exactly when some attempt succeeds; its error is then the text of the last failed attempt, if there was one; with a limit below one it fails without attempts |
| DagRuns.CompletedWithoutErrorExactly | src/cadgenesis/agents/scheduling.py:329-352 | a node that starts without an error and completes carries none exactly when its first attempt succeeded or the last failure had no text |
| DagRuns.ErrorStaysAfterSuccess | src/cadgenesis/agents/scheduling.py:329-352 | one failure and one successful retry leave a completed node with the text of the failure |
| DagRuns.SkippedIffTainted | src/cadgenesis/agents/scheduling.py:289-297 | in the final state a node is skipped for an unsatisfied dependency exactly when some transitive dependency failed or missed its deadline |
| DagRuns.NothingWrongAllComplete | src/cadgenesis/agents/scheduling.py:269-327 | with no failure and no missed deadline every node completes |
| DagRuns.FinalUnique | src/cadgenesis/agents/scheduling.py:269-327 | the rule for final states has one solution: the outcome does not depend on the order within a wave |
| DagRuns.FinalAccountsForAll | src/cadgenesis/agents/scheduling.py:316-327 | completed, failed and skipped nodes add up to all nodes |
| DagRuns.ExecutedAfterDeps | src/cadgenesis/agents/scheduling.py:286-315 | in the trace of executions a node comes after all its dependencies, which completed |
| DagRuns.WavesAreLongestChain | src/cadgenesis/agents/scheduling.py:286-315 | when everything completes, the number of waves is the length of the longest chain |
| DagRuns.WaveEnds | src/cadgenesis/agents/scheduling.py:288-315 | a wave runs exactly the nodes of its depth and moves the run one wave on |
| DagRuns.StuckEnds | src/cadgenesis/agents/scheduling.py:289-297 | when no pending node is ready, skipping all of them gives the final state |
| DagRuns.RunIsPunctual | src/cadgenesis/agents/scheduling.py:286-352 | after a run a node has been executed exactly when its dependencies completed and its deadline, if any, is not before the clock of its wave; with an earlier deadline it is skipped for that reason; an executed node completed at its first success within its attempts or failed with the last text |
| DagSchedulers.DagScheduler.RunNode | src/cadgenesis/agents/scheduling.py:329-352 | the retry loop leaves the node as the attempts specify and no other node changed |
| DagSchedulers.DagScheduler.RunWave | src/cadgenesis/agents/scheduling.py:298-315 | one wave in order of priority and id, with deadlines, keeps the invariant of the run |
| DagSchedulers.DagScheduler.SkipRest | src/cadgenesis/agents/scheduling.py:289-297 | exactly the pending nodes are marked skipped and counted |
| DagSchedulers.DagScheduler.Run | src/cadgenesis/agents/scheduling.py:269-352 | every run on an accepted graph ends in the final state, with its trace, wave count, counters and critical path, with deadlines and numbers of attempts kept as the nodes say; a rejected graph is unchanged |
| LoadBounds.LptBound | src/cadgenesis/agents/scheduling.py:478-485 | descending costs on idle workers: three m times the largest load is at most 4m - 1 times the largest load of any schedule |
| LoadBounds.RoomForLast | src/cadgenesis/agents/scheduling.py:481-484 | against every schedule within a bound, pigeonhole leaves a worker light enough for a large last job |
| LoadBounds.Reschedule | src/cadgenesis/agents/scheduling.py:481 | reordering jobs keeps the loads that schedules can reach |
| LoadBalancers.AssignIsNearOptimal | src/cadgenesis/agents/scheduling.py:478-485 | what assign leaves is within 4/3 - 1/(3m) of every possible assignment |
| LoadBalancers.AssignPartitions | src/cadgenesis/agents/scheduling.py:480-485 | every submitted node goes to exactly one worker |
| LoadBalancers.SortedByCost | src/cadgenesis/agents/scheduling.py:481 | tasks are taken by descending cost, distinct ones of one cost in the order given |
| LoadBalancers.LoadBalancer.Assign | src/cadgenesis/agents/scheduling.py:478-485 | the loop over the load array is the greedy assignment to the least loaded worker, costliest first, ties in order |
| LoadBalancers.LoadBalancer.Reset | src/cadgenesis/agents/scheduling.py:475-476 | all loads are zero again |
| LoadBalancers.LoadBalancer.Create | src/cadgenesis/agents/scheduling.py:465-469 | refused exactly below one worker; otherwise a new balancer with a load of zero for each worker |
| AgentTasks.NextTasksOrder | src/cadgenesis/agents/scheduler.py:119-125 | the batch is a prefix of the runnable entries, as long as the maximum allows; higher priorities come first, those of one priority in order of submission, and none left out has a higher priority than one taken |
| AgentTasks.TaskScheduler.HasCycles | src/cadgenesis/agents/scheduler.py:145-168 | true exactly when the known dependencies have a cycle, whatever is repeated or unknown |
| AgentTasks.CompletedIsLeastFixpoint | src/cadgenesis/agents/coordinator.py:186-194 | the completed set of a finished run is the least set closed under: dispatch succeeds and all dependencies are in it |
| AgentTasks.FinalBoardUnique | src/cadgenesis/agents/coordinator.py:186-194 | two finished runs end in the same statuses, whatever batches and priorities |
| AgentTasks.FinalStatus | src/cadgenesis/agents/coordinator.py:186-194 | the final status of each entry in terms of its dependencies and its dispatch outcome |
| AgentTasks.NothingStaysPending | src/cadgenesis/agents/coordinator.py:186-194 | without cycles, missing dependencies and failures nothing stays pending |
| AgentTasks.AgentCoordinator.RunBatch | src/cadgenesis/agents/coordinator.py:167-184 | dispatches the batch once each, in order, and records exactly those outcomes; by the tasks' own priorities, no task precedes a more urgent one and none left out is more urgent |
| AgentTasks.AgentCoordinator.RunAll | src/cadgenesis/agents/coordinator.py:186-194 | terminates with nothing runnable, every entry dispatched at most once, results in dispatch order; the completed set is closed under the dependency rule and contained in every other set that is |
| ResearchPlans.GetOrderedObjectives | src/cadgenesis/autonomous_research/planner.py:69-89 | terminates on every plan, returns each id once, and returns a topological order exactly when there is no cycle |
| ResearchPlans.Ordering.Visit | src/cadgenesis/autonomous_research/planner.py:76-84 | the recursion keeps: visited objectives are those ordered and those on the path, and without cycles the order respects dependencies |
| ResearchPlans.OrderedIsPermutation | src/cadgenesis/autonomous_research/planner.py:72-89 | with unique ids the result is a permutation of the objectives |
| ResearchPlans.BackEdge | src/cadgenesis/autonomous_research/planner.py:76-84 | meeting an objective that is still being visited closes a cycle |
| ResearchPlans.LastWins | src/cadgenesis/autonomous_research/planner.py:69-75 | of objectives with one id the last is the one that counts |
| Workflows.Orchestrator.GetExecutionOrder | src/cadgenesis/autonomous_platform/orchestrator.py:203-229 | succeeds exactly when all dependencies are registered and acyclic, repeats allowed, with a topological order |
| Workflows.DependenciesRecorded | src/cadgenesis/autonomous_platform/orchestrator.py:178-181 | a run from an empty state never meets an unsatisfied dependency |
| Workflows.CompletedIffNoneFatal | src/cadgenesis/autonomous_platform/orchestrator.py:190-201 | a workflow is completed exactly when no required stage raised |
| Workflows.Orchestrator.RunWorkflow | src/cadgenesis/autonomous_platform/orchestrator.py:168-201 | results, errors and checkpoints after a run are those of the order's prefix up to the first fatal stage; each checkpoint holds the results of the prefix through its stage; a fatal stage leaves the status rolled back exactly when it asks for it, and failed otherwise |
| Workflows.Orchestrator.ExecuteWorkflow | src/cadgenesis/autonomous_platform/orchestrator.py:140-166 | the same for the returned state, failed with the raised text when a stage is fatal or the order does not exist |
| Workflows.Orchestrator.RegisterStage | src/cadgenesis/autonomous_platform/orchestrator.py:136-138 | registering again replaces the configuration and keeps the place |
| Heaps.Push | src/cadgenesis/agents/event_bus.py:145-147 | pushing onto the list keeps a heap and puts the entry in its place in the queue it stands for |
| Heaps.Pop | src/cadgenesis/agents/event_bus.py:167-173 | popping returns the head of the queue and leaves a heap that stands for the rest |
| Heaps.RankedUnique | src/cadgenesis/agents/scheduling.py:388-410 | a heap stands for one queue only: entries with different keys have one order |
| Heaps.QueuedIsStableSort | src/cadgenesis/agents/event_bus.py:68-70 | queueing entries in turn is a stable sort by rank |
| DeadlineSchedulers.DeadlineScheduler.Submit | src/cadgenesis/agents/scheduling.py:395-399 | refused exactly without a deadline; otherwise queued by deadline and turn |
| DeadlineSchedulers.DeadlineScheduler.NextTask | src/cadgenesis/agents/scheduling.py:401-410 | returns the first unexpired entry and marks skipped exactly the expired ones |
| DeadlineSchedulers.DeadlineScheduler.Drain | src/cadgenesis/agents/scheduling.py:401-410 | asking repeatedly at one time returns exactly the unexpired entries in queue order and marks all others skipped |
| DeadlineSchedulers.DrainIsStableSort | src/cadgenesis/agents/scheduling.py:388-410 | that order is the stable sort by deadline of the unexpired submissions |
| EventBuses.EventBus.Subscribe | src/cadgenesis/agents/event_bus.py:100-111 | refused exactly for an empty topic; otherwise appended |
| EventBuses.EventBus.Publish | src/cadgenesis/agents/event_bus.py:127-151 | batched, the event joins those waiting; with auto-flush all that wait are delivered |
| EventBuses.EventBus.Flush | src/cadgenesis/agents/event_bus.py:153-173 | delivers exactly the waiting events, by descending priority and then by order of publication, and leaves none |
| EventBuses.DeliveredByPriority | src/cadgenesis/agents/event_bus.py:127-173 | of two waiting events the one with the higher priority is delivered first, of equals the one published first |
| EventBuses.EventBus.Deliver | src/cadgenesis/agents/event_bus.py:175-184 | calls exactly the subscriptions whose topic and filter match, in order |
| EventBuses.EachDeliveredOnce | src/cadgenesis/agents/event_bus.py:175-184 | over a whole flush each event reaches once each subscription to its topic or to all whose filter lets it through, and no other |
| Toon.PassesAreOneMap | sdk/toon.py:33-42 | the three replace passes equal one map per character |
| PythonStrings.ReplaceIsSplitJoin | sdk/toon.py:33-42 | replacing a text is splitting at it and joining again, also for several characters |
| Toon.UnescapeEscapeExactly | sdk/toon.py:33-67 | unescaping undoes escaping for all values exactly when the delimiter is neither a backslash nor n |
| Toon.UnescapeValue | sdk/toon.py:45-67 | the index loop computes the recursive unescape, trailing backslash kept |
| Toon.SplitRow | sdk/toon.py:70-93 | the index loop splits at the unescaped delimiters |
| Toon.RowRoundTrip | sdk/toon.py:70-93 | splitting and unescaping a printed row gives its values back |
| Toon.ToToon | sdk/toon.py:96-120 | the loops print the header line and one escaped row per object |
| Toon.FromToon | sdk/toon.py:123-144 | the loops parse every line against the header; an empty delimiter fails exactly on a non-empty header |
| PythonStrings.SplitLinesAt | sdk/toon.py:130 | a line ends at any boundary, and a carriage return with a newline after it is one |
| Toon.RoundTripExactly | sdk/toon.py:96-144 | objects sharing distinct field names come back exactly when names and values fit on lines and there are enough fields |
| ToonDelimiters.DelimiterExactly | sdk/toon.py:33-144 | all plain objects come back exactly when the delimiter is one character that escaping does not use and that ends no line |
| ToonDelimiters.LastEmptyRowIsLost | sdk/toon.py:96-144 | of two objects with one field, the last of which is empty, one comes back |
| ToonExtended.ToToon | sdk/toon_extended.py:119-164 | the loops print header, schema line if given, and rows |
| ToonExtended.FromToon | sdk/toon_extended.py:167-199 | the loops parse with schema detection and casting; an empty delimiter fails exactly where split is reached |
| ToonExtended.ChunkToon | sdk/toon_extended.py:241-272 | refused exactly for sizes below one; the chunks tile the objects in order, none is empty, and there are as many as the length divided by the size, rounded up |
| ToonExtended.WrittenReads | sdk/toon_extended.py:119-199 | for every schema list, or none: a written text reads as the lines that the schema leaves over, then the objects, typed by the line after the header if that is made of type words, where a first row taken for types is lost |
| ToonExtended.SchemaTakenExactly | sdk/toon_extended.py:143-187 | a schema of one line is taken for types exactly when each entry splits into type words only |
| ToonExtended.SchemaGivesTypesExactly | sdk/toon_extended.py:143-187 | the parser ends up with the written types and no line left over exactly when the list is not empty and holds type words without the delimiter |
| ToonExtended.TypedReads | sdk/toon_extended.py:90-199 | with a schema line of type words every value comes back as its type says: None when empty, the converted number or the text where conversion raises, the truth value of its word, or the text |
| ToonExtended.PlainReads | sdk/toon_extended.py:167-199 | without a schema line every object comes back, unless the first row is made of type words: it is lost and the others are cast to the types it names |
| ToonExtended.SchemaProtects | sdk/toon_extended.py:177-199 | with a schema line of "str" everything comes back as text, whatever the rows hold, exactly when the delimiter is not a letter of that word |
| ToonExtended.BadRowExactly | sdk/toon_extended.py:178-187 | a row is taken for a schema line exactly when every value is a type word without the delimiter |
| ToonExtended.ChunkingIsTransparent | sdk/toon_extended.py:241-272 | for every schema list, or none: reading the chunks in turn equals reading the whole exactly when no later chunk starts with a row of type words and the types in force do not change what follows the first chunk |
| ToonExtended.TypeWordChunkIsLost | sdk/toon_extended.py:241-272 | two objects in chunks of one, the second made of the word int, read differently from the whole |
| Matrices.ProductTimes | src/cadgenesis/adapters/lora.py:51-54 | x(BA)^T = (xA^T)B^T, by exchanging the two sums |
| Matrices.SameMapSameMatrix | src/cadgenesis/adapters/peft.py:132-137 | a linear map is determined by its values on all inputs |
| LowRank.LinearOutput | src/cadgenesis/adapters/lora.py:51 | each output of a linear layer is the product of the input with its row, plus its bias |
| LowRank.FoldKeepsFunction | src/cadgenesis/adapters/peft.py:132-137 | for every input the folded layer computes what the wrapper around the layer does |
| LowRank.ZeroUpdateIsInvisible | src/cadgenesis/adapters/lora.py:47-54 | a fresh wrapper computes what its base computes |
| LowRank.MergeOrderIrrelevant | src/cadgenesis/adapters/peft.py:132-138 | folding the same adapters into a weight in another order gives the same weight |
| LowRank.FoldKeepsSlotExactly | src/cadgenesis/adapters/peft.py:132-137 | with several updates to a shared base, the layer with its own update alone is kept exactly when the others cancel out |
| Adapters.MergeKeepsFunctionExactly | src/cadgenesis/adapters/peft.py:124-147 | after a merge a layer computes for every input what its wrapper computed exactly when the other updates folded into its weight, be it shared with other slots or other layers, cancel out |
| Adapters.TiedWeightChanges | src/cadgenesis/adapters/peft.py:132-137 | of two installations on one weight of zero, with the updates 1 and 2, neither layer computes what its wrapper did: the weight is 3 |
| Adapters.MergeKeepsFunction | src/cadgenesis/adapters/peft.py:124-147 | a merge keeps the function of every wrapper whose weight no other wrapper of the adapter has |
| Adapters.PEFTAdapter.Attach | src/cadgenesis/adapters/peft.py:55-97 | the refusals exactly; otherwise every matching attribute, and no other, gets a valid wrapper of the given rank around its base, with rank times scaling equal to alpha, which computes what the base computes, and the adapter is in its slots |
| Adapters.MatchesExactly | src/cadgenesis/adapters/peft.py:74-80 | an attribute is wrapped exactly when it holds a linear layer or a wrapper and one of the targets is part of its name |
| Adapters.WrapperAdds | src/cadgenesis/adapters/lora.py:33-54 | rank times what a wrapper adds to an output is alpha times the product of the input with its two matrices |
| Adapters.PEFTAdapter.Activate | src/cadgenesis/adapters/peft.py:99-106 | exactly the adapter's slots hold its wrappers again |
| Adapters.PEFTAdapter.Deactivate | src/cadgenesis/adapters/peft.py:108-118 | every slot with an installation holds the base that was behind it, the others are unchanged |
| Adapters.PEFTAdapter.Merge | src/cadgenesis/adapters/peft.py:124-147 | every weight of the model gains exactly the deltas of the wrappers whose base holds it, the adapter's slots hold their bases, the adapter is gone and nothing else changes; an active adapter that was in its slots stays there exactly when it is the merged one or shares no slot with it |
| Adapters.StaysWiredExactly | src/cadgenesis/adapters/peft.py:136-147 | putting slots back leaves an adapter in its slots exactly when it has none of them |
| AdapterRuns.AttachTrainMerge | src/cadgenesis/adapters/peft.py:55-147 | succeeds exactly when attach does; attaching, training with any matrices and merging puts the bases back into the matching slots and gives each the function of its trained wrapper exactly when the other wrappers' updates of the same weight cancel out |
| AdapterRuns.OwnWeightsKept | src/cadgenesis/adapters/peft.py:55-147 | when the layers of the adapter have a weight each, all of them compute what their trained wrappers did |
| AdapterRuns.MergeShared | src/cadgenesis/adapters/peft.py:55-147 | a model of two layers that share a weight, attached, trained to the updates 1 and 2 and merged by calls, ends with the weight 3 and neither function |
| AdapterRuns.MergeEach | src/cadgenesis/adapters/peft.py:124-147 | merging adapters by one call each folds their updates into every weight in turn and removes exactly those adapters |
| AdapterRuns.MergeCallsCommute | src/cadgenesis/adapters/peft.py:124-147 | two sequences of merge calls for the same adapters leave the same weights |
| Adapters.WiredAt | src/cadgenesis/adapters/peft.py:99-106 | what each slot holds after wiring an adapter with distinct slots |
| Quantization.RowError | src/cadgenesis/adapters/qlora.py:31-46 | every integer lies in [-127, 127] with the clamp idle and stands for the nearest value, the even one of two, at most 1/254 of the largest magnitude in the row, or of 1e-12, from the weight |
| Quantization.LargestIsOutermost | src/cadgenesis/adapters/qlora.py:32-33 | the largest entries of a row that reaches 1e-12 become 127 or -127 |
| Quantization.QuantizingIsIdempotent | src/cadgenesis/adapters/qlora.py:31-46 | quantizing the dequantized row gives the same integers and scale |
| Quantization.ForwardError | src/cadgenesis/adapters/qlora.py:48-52 | each output is off by at most 1/254 of the largest magnitude of its row (or of 1e-12) for each unit of input |
| QuantizedModels.FoldKeepsModel | src/cadgenesis/adapters/qlora.py:144-178 | folding keeps what every layer of the model computes, and how they are put together |
| QuantizedModels.FoldRemovesQuantized | src/cadgenesis/adapters/qlora.py:150-159 | after the fold no quantized layer is left, and a model without any is unchanged |
| QuantizedModels.QuantizeReplacesAll | src/cadgenesis/adapters/qlora.py:72-80 | after quantizing no linear layer is left |
| QuantizedModels.MergedIsPlain | src/cadgenesis/adapters/qlora.py:144-178 | when wrappers stand around linear layers, quantizing and merging leaves linear layers only, without wrappers |
| QuantizedModels.QuantizeAfterFold | src/cadgenesis/adapters/qlora.py:72-80 | folding a quantized model and quantizing again gives the same quantized model |
| QuantizedModels.MergeError | src/cadgenesis/adapters/qlora.py:144-178 | a wrapper on a quantized layer, merged, is within the quantization error of the wrapper on the original layer |
| QuantizedModels.MergedModelError | src/cadgenesis/adapters/qlora.py:72-178 | a whole model, quantized under its wrappers and merged into plain layers, has the same structure, and every output of every layer is off by at most half a step of its row for each unit of input |
| MemoryRuns.SafeWriteKeepsBound | src/cadgenesis/agents/shared_memory.py:153-160 | a write after which no other key ranks as newer keeps: a written key is held, was removed or expired, or gave way to at least as many other keys written since as there is room for |
| MemoryRuns.SafeRunKeepsBound | src/cadgenesis/agents/shared_memory.py:153-160 | so does every run of such writes |
| MemoryRuns.UnsafeWriteBreaksBound | src/cadgenesis/agents/shared_memory.py:153-160 | after any other write, a run of writes of new keys that are themselves safe pushes the key out before as many were written as there is room for |
| MemoryRuns.SafeExactly | src/cadgenesis/agents/shared_memory.py:153-160 | a write is safe exactly when the bound then holds through every run of safe writes |
| MemoryRuns.SafeUnderSteadyClock | src/cadgenesis/agents/shared_memory.py:155-160 | when no reading is earlier than those stored, a write is unsafe exactly when the key is held and a key behind it in the dictionary has the same reading |
| MemoryRuns.EqualTimesEvictTooEarly | src/cadgenesis/agents/shared_memory.py:153-160 | writing a, b, a and c at one reading into a region for two keys leaves b and c, although only c was written since a |
| MemoryRegions.MemoryRegion.Set | src/cadgenesis/agents/shared_memory.py:153-160 | at any clock reading, the key is written and at most the oldest key goes; a safe write keeps what the history promises |
| MemoryRegions.MemoryRegion.Get | src/cadgenesis/agents/shared_memory.py:182-193 | finds a key exactly while it is held and fresh, with the value last written; otherwise the key is dropped and was removed, has expired, or gave way to as many other keys as there is room for |
| MemoryRegions.MemoryRegion.Keys | src/cadgenesis/agents/shared_memory.py:199-203 | lists exactly the keys that get finds at that time, once each |
| MemoryRegions.MemoryRegion.Remove | src/cadgenesis/agents/shared_memory.py:168-170 | reports whether the key was there and removes only it, in the dictionary and in its order |
| MemoryRegions.MemoryRegion.Clear | src/cadgenesis/agents/shared_memory.py:172-178 | nothing is held, and the history forgets every key |
| MemoryRegions.Oldest | src/cadgenesis/agents/shared_memory.py:159 | the first key of the dictionary with the least time |
| SharedMemories.LayeredSharedMemory.Set | src/cadgenesis/agents/shared_memory.py:153-160 | only the named region changes, and as the region's set says; an unknown one is an error |
| SharedMemories.LayeredSharedMemory.Get | src/cadgenesis/agents/shared_memory.py:182-193 | the same for the named region, with what it holds and its history afterwards; an unknown region is an error |
| SharedMemories.LayeredSharedMemory.Remove | src/cadgenesis/agents/shared_memory.py:168-170 | removes the key from the named region only, as its history records; an unknown region is an error |
| SharedMemories.LayeredSharedMemory.Clear | src/cadgenesis/agents/shared_memory.py:172-178 | empties the named region; an unknown region is an error |
| SharedMemories.LayeredSharedMemory.Create | src/cadgenesis/agents/shared_memory.py:108-121 | refused exactly for a capacity below one; otherwise one new, empty region for each name |
| SharedMemories.LayeredSharedMemory.AddRegion | src/cadgenesis/agents/shared_memory.py:146-149 | refused exactly for a name in use; otherwise one empty region is added |
| CreditLedgers.Conservation | src/cadgenesis/collaboration/compute_credits.py:474-492 | all balances of a type together are what was issued minus what was consumed |
| CreditLedgers.Recorded | src/cadgenesis/collaboration/compute_credits.py:283-300 | a change and its record keep every balance equal to minus the sum of its amounts in the log |
| CreditLedgers.RunStaysNonNegative | src/cadgenesis/collaboration/compute_credits.py:49-63 | in every run that adds no negative amounts no balance goes below zero |
| CreditLedgers.StaysNonNegative | src/cadgenesis/collaboration/compute_credits.py:49-63 | one operation keeps balances from going below zero exactly unless it adds more negative credit than there is |
| CreditLedgers.NegativeAdditionOverdraws | src/cadgenesis/collaboration/compute_credits.py:49-53 | adding -1 to an unused account leaves it below zero |
| CreditLedgers.ComputeCreditLedger.Perform | src/cadgenesis/collaboration/compute_credits.py:260-328 | a run of additions and deductions by calls leaves the books that the operations describe |
| CreditLedgers.ComputeCreditLedger.AddCredits | src/cadgenesis/collaboration/compute_credits.py:273-300 | the one balance grows by the amount and the negated amount is logged; only a missing account is created, and the others stay the same objects |
| CreditLedgers.ComputeCreditLedger.DeductCredits | src/cadgenesis/collaboration/compute_credits.py:302-328 | succeeds exactly when there is enough; refused, no balance and no record changes; only a missing account is created |
| CreditLedgers.ComputeCreditLedger.CreateGrant | src/cadgenesis/collaboration/compute_credits.py:332-366 | the grant is kept and applied at once |
| CreditLedgers.ComputeCreditLedger.RecordUsage | src/cadgenesis/collaboration/compute_credits.py:390-406 | units times the rate of their type, the units alone without a rate, are deducted |
| CreditLedgers.ComputeCreditLedger.TotalIssued | src/cadgenesis/collaboration/compute_credits.py:474-483 | the loop totals the additions of every type |
| CreditLedgers.ComputeCreditLedger.TotalConsumed | src/cadgenesis/collaboration/compute_credits.py:485-492 | the loop totals the deductions of every type |

## Left out

- DagSchedulers.DagScheduler.Run: wall-clock statistics and start and finish times are not modelled; the clock is a function of the wave, and the outcome of an attempt a function of the node and the number of the attempt.
- AgentTasks.AgentCoordinator.RunAll: the outcome of a dispatch is fixed for each entry; agents and the messages they send are not modelled.
- EventBuses.EventBus.Flush: handlers that publish while they are called, and filters that raise, are not modelled; what a handler does is the record of its call.
- EventBuses.EventBus.Publish: requests with their timeouts, pending responses and the event store are not modelled.
- DeadlineSchedulers.DeadlineScheduler.NextTask: the time is always given; the clock that is read without it is not modelled.
- ToonExtended.ChunkToon: fields are given rather than taken from the first object of each chunk, and types are given rather than inferred.
- ToonExtended.FromToon: int() and float() are parameters; lower() is that of ASCII letters, which is all that the words compared with contain.
- Toon.ToToon: values are strings; str() of other values is not modelled.
- Adapters.PEFTAdapter.Attach: the attributes are a list in the order of torch's traversal, which visits an attribute once; targets contained in the name original_linear, for which the source's traversal keeps wrapping its own wrappers, are not modelled.
- Adapters.PEFTAdapter.Merge: requires_grad flags, dropout and rounding are not modelled, nor are weights that overlap in storage without being one Parameter; training is any assignment to the wrappers' matrices.
- QuantizedModels.FoldKeepsModel: modules are values, so a module shared by two parents is two modules; the byte counts and attach_lora are not modelled.
- Quantization.RowError: arithmetic is over exact reals.
- SharedMemories.LayeredSharedMemory.Clear: one region at a time.
- SharedMemories.LayeredSharedMemory.Set: change listeners, the mirror into the semantic memory and the knowledge cache are not modelled.
- CreditLedgers.ComputeCreditLedger.AddCredits: persistence, identifiers, descriptions and times of records are not modelled; usage summaries and histories would only add easy members.
- Workflows.Orchestrator.RunWorkflow: what a stage returns or raises is a function of the stage; pausing, resuming and human review are status assignments and are left out.
- Threads, locks, worker pools and files: the modelled loops run one step after the other in the source.
- The experiment planner and the approval workflow: their orderings and stages hold no comparable properties.
- The flat blackboard, registries, manifests and reports: dictionary lookups that would only add easy members.
