# DAG service verification

A Dafny model of the parts of this repository that decide in which order work happens and what is
promised about it, with proofs. It follows the request pipeline.

* **Configurator.** `GenerateDag` turns the heights at which nodes hold data into dependencies,
  `CheckHeight` is the test in front of it, `SimplifyNodeDep` the transitive reduction behind it.
  `SearchEnds` says when its search ends, `Schedules` when there are orders that respect the result,
  `Confluence` what the order is good for, `CyclicInput` and `EndlessInput` what can happen to a cyclic
  result. `Graphs` holds paths and reachability.
* **Scheduler.** `Scheduling` has the objects and their methods. `Execution` and `ExecutionRuns` have
  one `execute()` as a transition system over all interleavings; `Replays` builds its runs. `RacingScan` and
  `EarlyReturns` say what an unsafe seeding scan costs.
* **Thread pool.** `PoolSystem` and `PoolRuns` have the pool as a transition system, `PoolBounds` how much
  it is sure to take, `PoolStop` what `stop()` can lose. `ThreadPools` has its classes. `EndToEnd` and
  `EndToEndRuns` compose scheduler and bounded pool; `DropRun` builds a run that drops a task.
* **Together.** `Pipeline` joins configurator and scheduler, `Overlap` adds the data that overlapping works
  leave, `OverPool` the pool.
* **redis-plus-plus.** The asynchronous connection (`ConnectionProtocol`, `ConnectionRuns`, `Stranding`,
  `AsyncConnections`), CRC-16/XMODEM (`BitRegister`, `CrcTable`, `Crc16`), hash tags (`HashSlot`) and the
  bounded connection pool (`ConnectionPoolSystem`, `ConnectionPools`).

Concurrency is modelled as steps: one critical section, one unlocked read or write or one foreign call
each. A run is any sequence of steps, and invariants are proved for every step. Where the source is
imperative, the methods are too. Those of `AsyncConnections` and the worker loop of `ThreadPools` extend a
recorded run by steps of the transition system, with other threads acting in between, so what is proved
of runs speaks of the methods.

`dafny verify dfyconfig.toml` checks the whole project.

## What the proofs found

* `generate_dag` can return a cyclic result. It does so exactly when the heights of different data cannot
  all be followed in one order (`Schedules.AcyclicExactly`). Such a result can pass the check and lose a
  dependency in `simplify_node_dep` without an error (`CyclicInput.AcceptedLosesDependency`); which graphs
  keep their meaning is `SimplifyNodeDep.PreservedExactly`. Or the reduction may recurse without end
  (`EndlessInput.AcceptedNeverEnds`); on which graphs it may is `SearchEnds.EndsExactly`. A scheduler over a
  cyclic graph never returns if its seeding is safe (`ExecutionRuns.ReturnedIsAcyclic`); if not, it can, with
  work left (`EarlyReturns.CyclicReturns`).
* `check_height` is not what its comment says. `CheckHeight.JudgeExact` states what it tests for all
  inputs, `CheckHeight.CommentExact` where it and its comment agree, `CheckHeight.PipelineExact` what it and
  `generate_dag` accept together. It can also raise an index error, already for one holder at height 1;
  exactly when is `CheckHeight.RaisesExactly` for a list and `CheckHeight.CheckRaisesExactly` for the whole.
* Two nodes writing one height of a datum may disagree. `Overlap.DeterministicExactly` says that this is
  the only obstacle: runs agree under `CoWritersOrdered`, and otherwise two runs of the scheduler differ.
* The seeding scan reads counters while seeds already run. It may then submit a task twice, and
  `execute()` may return too early or never. `ExecutionRuns.SeedingExact` and `RacingScan.CompletionExact`
  say exactly for which graphs and orders of `add_task` that cannot happen (`SeedingSafe`), and
  `EarlyReturns.ReturnMeansDone` when a return can be trusted. With `atomicSeed` the scan is one step.
* `ThreadPool::add_task` reads and stores its index without a lock, so the pool is sure to take only as
  many tasks as one queue holds, not as all queues hold (`PoolBounds.CapacityIsExact`); the scheduler's own
  submissions can drop a task (`DropRun.SchedulerDrops`), and then `execute()` never returns
  (`EndToEndRuns.ReturnsUnlessDropped`).
* A submission that has passed its test of `stop_` when `stop()` begins can reach a worker that has
  already left, and is then accepted but never run (`PoolStop.LateSubmissionIsLost`).
* `~Scheduler` stops the shared pool: the next `execute()` with a task never returns
  (`EndToEndRuns.StoppedPoolServesNobody`).
* An empty reply during the handshake, and nothing else, leaves waiting events with nobody to act on them
  until a disconnect (`Stranding.StrandedByEmptyReply`, `Stranding.NoEventStranded`).
* A connection pool of size zero is refused by one constructor only. With the other one no client is
  ever served (`ConnectionPoolSystem.EmptyPoolNeverServes`).

## Model

| member | source | states |
|---|---|---|
| `GenerateDag.Generate` | dag_configor/dag_util.py:173-215 | succeeds exactly when every holder away from height 0 finds another node to wait for; the result has an edge for each pair of which one waits for the other and no other edge, each list name by name; otherwise the holding reported has nobody to wait for, and none before it, entry by entry and holding by holding, is in that position |
| `GenerateDag.DepsOfNode` | dag_configor/dag_util.py:179-211 | the loop over one node: its list, name by name, or the position of the first holding that has nobody to wait for |
| `GenerateDag.DepsOfOne` | dag_configor/dag_util.py:180-211 | one holding appends nothing at height 0; a negative height falls back to the next height up only if nobody else holds its absolute value |
| `GenerateDag.AppendHolders` | dag_configor/dag_util.py:189-196 | the two inner loops append the other holders of one height of one datum, in dictionary order, and the flag says whether there are any |
| `GenerateDag.ListMember` | dag_configor/dag_util.py:173-211 | the list of a node names exactly the nodes it waits for through one of its holdings |
| `GenerateDag.OncePerHolding` | dag_configor/dag_util.py:189-196 | where no holding is repeated, one holding adds each name once, so a list repeats a name only for different holdings |
| `GenerateDag.HoldersInOrder` | dag_configor/dag_util.py:189-196 | the names one holding adds come in the order of the dictionary |
| `GenerateDag.ListByHolding` | dag_configor/dag_util.py:180-211 | holding by holding a list grows: nothing at height 0, the other holders of -(h - 1) above it, below it those of -h or, if there are none, those of h + 1 |
| `GenerateDag.DatumChain` | dag_configor/dag_util.py:178-211 | of two holders of one datum, the one earlier in the order 0, 1, -1, 2, -2, ... is a direct or indirect dependency of the later |
| `GenerateDag.ExactSchedules` | dag_configor/dag_util.py:178-211 | a node order respects the generated dependencies if and only if for every datum its holders come in that order, equal heights free |
| `Schedules.AcyclicExactly` | dag_configor/dag_util.py:173-215 | the result has no cycle if and only if the nodes can be put in one order in which the holders of every datum come in height order |
| `Schedules.ScheduleExists` | dag_configor/dag_util.py:173-215 | every acyclic result has an order that respects it |
| `Schedules.CrossedIsCyclic` | dag_configor/dag_util.py:173-215 | two nodes each of which ranks above the other for some datum give a cycle, always |
| `Schedules.MayBeCyclic` | dag_configor/dag_util.py:173-215 | two data held the other way round by two nodes generate without error, and the result has a cycle |
| `Schedules.EitherOrder` | dag_configor/dag_util.py:173-215 | in an acyclic result two nodes that no path joins may come right after each other, in either order |
| `Confluence.SchedulesAgree` | dag_configor/dag_util.py:173-215 | any two node orders respecting the dependencies leave the same data, if two writers of one height of a datum are always ordered through another datum |
| `Confluence.UnorderedWritersDisagree` | dag_configor/dag_generator.py:8-10 | without that condition it fails: two permitted orders and a well-behaved behaviour with different results exist for every such input |
| `Confluence.UnorderedAreIndependent` | dag_configor/dag_util.py:178-211 | nodes that no dependency orders share data only at equal negative heights, which only read |
| `Confluence.IndependentCommute` | dag_configor/dag_util.py:178-211 | two such nodes may be swapped |
| `SimplifyNodeDep.DfsDecidesReachability` | dag_configor/dag_util.py:228-234 | on every graph, cyclic or not, an answer of the recursive search is right: the target is listed or reached from something listed |
| `SimplifyNodeDep.DfsAnswers` | dag_configor/dag_util.py:228-234 | on closed acyclic graphs it always answers, with one stack frame more than there are nodes |
| `SimplifyNodeDep.Dedup` | dag_configor/dag_util.py:220-221 | the same names, each once |
| `SimplifyNodeDep.Implied` | dag_configor/dag_util.py:239-244 | the flag of the innermost loop: whether another listed name leads to this one; it raises exactly if one of its searches does |
| `SimplifyNodeDep.KeepDirect` | dag_configor/dag_util.py:236-245 | of one list, exactly the dependencies that no other listed one reaches, each once |
| `SimplifyNodeDep.Simplify` | dag_configor/dag_util.py:218-247 | for every graph: it returns exactly if all its searches answer (for which graphs they do is `SearchEnds.EndsExactly`), always if the graph is closed and acyclic; the argument keeps its edges, deduplicated; the result keeps exactly the dependencies no sibling implies, each once |
| `SearchEnds.EndsExactly` | dag_configor/dag_util.py:228-245 | for every closed graph: all searches answer for every order of the lists, with one stack frame more than there are nodes, if and only if from no dependency a cycle can be entered through nodes whose lists lack the sibling searched for; otherwise some order exhausts any stack |
| `SimplifyNodeDep.PreservedExactly` | dag_configor/dag_util.py:236-245 | for every graph: the result connects the same pairs if and only if each dropped dependency is led to by a kept one that does not lead back |
| `SimplifyNodeDep.ReachabilityPreserved` | dag_configor/dag_util.py:218-247 | the result connects exactly the pairs its input connects |
| `SimplifyNodeDep.KeptIsCovering` | dag_configor/dag_util.py:236-245 | a dependency is kept exactly when it is reachable with nothing strictly between |
| `SimplifyNodeDep.KeptIsForced` | dag_configor/dag_util.py:236-245 | every graph with the same reachability contains every kept dependency |
| `SimplifyNodeDep.KeptIsNeeded` | dag_configor/dag_util.py:236-245 | no kept dependency is implied by all the others together |
| `SimplifyNodeDep.ReductionIsStable` | dag_configor/dag_util.py:218-247 | simplifying again changes nothing |
| `SimplifyNodeDep.CycleLosesReachability` | dag_configor/dag_util.py:218-247 | a cyclic graph on which every search answers, whatever the order of the lists, and the only way between two nodes is dropped |
| `CyclicInput.AcceptedLosesDependency` | dag_configor/dag_generator.py:43-54 | heights that pass the check and the generation give that graph: a dependency the heights ask for is lost without an error |
| `EndlessInput.AcceptedNeverEnds` | dag_configor/dag_util.py:228-245 | heights that pass the check and the generation, and on whose result the search recurses until any stack is exhausted, for every order of the lists |
| `CheckHeight.CheckHeights` | dag_configor/dag_generator.py:11-34 | accepts exactly when the heights of every datum are regular; otherwise the answer names the datum, and is of the kind, of the first holding, entry by entry and holding by holding, whose datum is not regular |
| `CheckHeight.FirstMetOrder` | dag_configor/dag_generator.py:12-19 | the data are judged in the order in which they are met for the first time |
| `CheckHeight.HeightsAre` | dag_configor/dag_generator.py:14-19 | the heights of a datum are those of its holdings, in order and each once |
| `CheckHeight.RaisesExactly` | dag_configor/dag_generator.py:21-31 | for all lists, by their least and greatest height and their length: the index error is raised if and only if the greatest is within the bound and the list is no longer than the least is deep |
| `CheckHeight.CheckRaisesExactly` | dag_configor/dag_generator.py:20-31 | so the whole check raises if and only if some datum overruns in that sense and all data before it pass |
| `CheckHeight.LoneHeightRaises` | dag_configor/dag_generator.py:21-31 | a datum with a single holder raises unless it is held at 0 |
| `CheckHeight.JudgeExact` | dag_configor/dag_generator.py:21-31 | what the two index tests really test, for all lists: bounds, one count, and the presence of 0, of the minimum and of 1 |
| `CheckHeight.PipelineExact` | dag_configor/dag_generator.py:43-54 | check and generation both succeed if and only if each datum has its heights from the lowest to 0 once each and above them only heights up to one more than the depth, 1 among them |
| `CheckHeight.ContiguousHeightsSucceed` | dag_configor/dag_generator.py:11-34 | heights -k to m, one holder each, with m at most k+1, are accepted and generate without error |
| `CheckHeight.ContiguousHoldersChain` | dag_configor/dag_util.py:179-211 | and then each datum has one chain: no two holders share a height and any two are ordered by it |
| `CheckHeight.CommentExact` | dag_configor/dag_generator.py:8-31 | the check and its comment agree exactly on contiguous lists: accepted and as the comment says if and only if the heights run from some lowest to some highest once each |
| `CheckHeight.AcceptsAgainstComment` | dag_configor/dag_generator.py:8-31 | a list that is accepted against both promises of the comment: [-2,0,0] |
| `CheckHeight.RejectsAgainstComment` | dag_configor/dag_generator.py:8-31 | a list that is rejected although it keeps them: [-1,-1,0] |
| `CheckHeight.TidyAsCommented` | dag_configor/dag_generator.py:8-10 | what passed both steps meets the comment exactly when the heights above 0 are 1, 2, ... once each |
| `CheckHeight.AcceptedIsConfluent` | dag_configor/dag_generator.py:43-54 | what both steps accept may run in any permitted order with one result, if no positive height is repeated |
| `Scheduling.Task.SetPrecede` | dag_scheduler/task.cpp:47-53 | one entry in each list and one count; over any set of tasks each counter stays the number of its precede edges, recorded equally often at both ends |
| `Scheduling.Task.SetPrecedeAll` | dag_scheduler/task.cpp:55-61 | the loop appends all of them in order and keeps the same balance |
| `Scheduling.Task.PostRun` | dag_scheduler/task.cpp:19-45 | each successor loses one count per edge; submitted, once each, are exactly those whose counter goes from above zero to zero or below, in the order of the edges that take the last count; one completion is counted |
| `SchedulingRefinement.NotifiesInARow` | dag_scheduler/task.cpp:25-36 | in the transition system notifications in a row have that effect on counters and submissions |
| `SchedulingRefinement.PostRunSteps` | dag_scheduler/task.cpp:19-45 | undisturbed, the method is the path of the notifications and the count, the objects showing its last state and every task submitted as often as it is there |
| `Scheduling.Scheduler.Seed` | dag_scheduler/scheduler.cpp:40-52 | undisturbed, the completion counter is the number of tasks, and submitted are exactly the tasks whose counter is zero, in the order in which they were added |
| `SchedulingRefinement.ZeroIsRoot` | dag_scheduler/task.cpp:47-61 | of tasks linked by `set_precede` those are the ones that wait for nobody, which are the roots of the graph |
| `SchedulingRefinement.StartWork` | dag_scheduler/scheduler.cpp:40-52 | undisturbed, the loop is the run of scans from the initial state, and submits the roots |
| `SchedulingRefinement.CountersAreInDegrees` | dag_scheduler/task.cpp:47-61 | the counters `set_precede` leaves are those the transition system starts from |
| `ExecutionRuns.SafeStepKeepsInv` | dag_scheduler/task.cpp:6-45 | where seeding is safe every step of every thread, the scan included, keeps: counters are edges not yet notified, submitted are exactly the tasks with nothing to wait for, no event twice, work ordered by edges |
| `ExecutionRuns.CountersExact` | dag_scheduler/task.cpp:25-43 | where seeding is safe, in every interleaving each counter is the number of its precede edges, duplicates counted, not yet notified, and `wait_executed` the number of tasks not yet counted |
| `ExecutionRuns.DependencySafety` | dag_scheduler/task.cpp:19-45 | where seeding is safe no work begins before the work of all direct and indirect predecessors has ended |
| `ExecutionRuns.ExactlyOnce` | dag_scheduler/scheduler.cpp:40-59 | where seeding is safe no work begins or ends twice, and when `execute()` has returned every work has begun and ended |
| `ExecutionRuns.Progress` | dag_scheduler/scheduler.cpp:40-61 | on an acyclic graph, from every state of the invariant that safe seeding keeps, some step is possible until `execute()` returns |
| `ExecutionRuns.StepShrinks` | dag_scheduler/task.cpp:19-45 | every step lowers a measure of phases and unnotified edges |
| `ExecutionRuns.RunsComplete` | dag_scheduler/scheduler.cpp:40-61 | on an acyclic graph whose seeding is safe every run is finite, with an explicit bound, and can end only after the return with all work done exactly once |
| `RacingScan.CompletionExact` | dag_scheduler/scheduler.cpp:40-61 | for every graph and every order of adding its tasks: all runs that cannot go on have returned if and only if the graph is acyclic and its seeding safe |
| `RacingScan.UnsafeHangs` | dag_scheduler/scheduler.cpp:44-59 | for every acyclic graph with an unsafe task: a run that gets stuck, its completion counter having gone past zero unseen |
| `RacingScan.EarlyReturn` | dag_scheduler/scheduler.cpp:44-59 | for every unsafe task and every other task that leads to nobody else, if nobody but that one may wait for itself: a run that returns before that other task has begun |
| `EarlyReturns.ReturnMeansDone` | dag_scheduler/scheduler.cpp:54-59 | for every acyclic graph: the return of `execute()` means that all work is done if and only if seeding is safe or the one unsafe task comes after all others |
| `EarlyReturns.AcyclicReturnsEarly` | dag_scheduler/scheduler.cpp:44-59 | an input: three tasks, one edge, added in its direction; a run returns with the third task not begun |
| `EarlyReturns.CyclicReturns` | dag_scheduler/scheduler.cpp:44-59 | an input: the same with the third task waiting for itself; a run over this cyclic graph returns |
| `EarlyReturns.PairHangs` | dag_scheduler/scheduler.cpp:44-59 | an input: two tasks and one edge; a run never returns |
| `ExecutionRuns.ReturnedIsAcyclic` | dag_scheduler/scheduler.cpp:40-61 | where seeding is safe no run over a cyclic graph ever returns |
| `Replays.EveryOrderRuns` | dag_scheduler/scheduler.cpp:40-61 | every order of the tasks that the edges allow is the order of works of some run that returns |
| `ExecutionRuns.MeasureOfInit` | dag_scheduler/task.cpp:19-45 | the bound on a run: each task costs its precede edges out and five more steps, and one for the return |
| `ExecutionRuns.SeedingExact` | dag_scheduler/scheduler.cpp:44-52 | for every graph: with the scan interleaved, exactly-once holds in all runs if and only if each task with predecessors was added before some root above it, or waits for itself |
| `ExecutionRuns.ScanSubmitsTwice` | dag_scheduler/scheduler.cpp:44-52 | for each task of which neither is true, a run exists in which it begins twice |
| `PoolSystem.StepKeepsInv` | thread_pool/thread_pool.cpp:29-137 | every step of submitters, workers and `stop()` keeps all that follows |
| `PoolSystem.UndisturbedIsDelivery` | thread_pool/thread_pool.cpp:37-42 | if nobody comes between, reading the index, pushing, reading it again and storing it amount to one delivery |
| `PoolRuns.Conservation` | thread_pool/thread_pool.cpp:97-137 | each worker's accepted tasks are, in order, those it has run, the one in flight, its queue; the queue is never over its limit |
| `PoolRuns.NoLostWakeUp` | thread_pool/thread_pool.cpp:97-129 | a worker asleep without a pending signal has an empty queue, although a push notifies only at size 1 |
| `PoolRuns.DrainOnStop` | thread_pool/thread_pool.cpp:70-90 | when `stop()` has returned every worker has ended after running all it accepted before it left; that is all it ever accepted unless a submission raced with the flag |
| `PoolRuns.LeavesOnce` | thread_pool/thread_pool.cpp:112-137 | a worker leaves its loop at most once, and runs nothing after |
| `PoolRuns.StepProjects` | thread_pool/thread_pool.cpp:97-137 | every step of the pool is, for each worker, a step of its own, a push, a notification, the flag, or nothing |
| `PoolStop.LateSubmissionIsLost` | thread_pool/thread_pool.cpp:29-42 | from every reachable state with a submission between its test of `stop_` and its queue, before `stop()`: some run goes on to where the pool has stopped with that task accepted and left in a queue |
| `PoolStop.AbandonedForGood` | thread_pool/thread_pool.cpp:112-137 | and from there it is never run |
| `PoolBounds.NeverRefused` | thread_pool/thread_pool.cpp:37-42 | up to the capacity no delivery of any run is refused, however slow the workers: one queue's limit as the code is, all queues' together if deliveries were atomic |
| `PoolBounds.OneMoreIsRefused` | thread_pool/thread_pool.cpp:37-42 | for every pool, limit and starting index some run of one delivery more has one refused, as the code is by submitters that have all read the index |
| `PoolBounds.CapacityIsExact` | thread_pool/thread_pool.cpp:37-42 | so a number of submissions is safe in all runs if and only if it is at most the capacity |
| `ThreadPools.Worker.AddTask` | thread_pool/thread_pool.cpp:97-110 | refused exactly when full; else queued last, signalling a sleeper when the size becomes 1 |
| `ThreadPools.Worker.TakeTask` | thread_pool/thread_pool.cpp:116-133 | the first half of the loop body, recorded step by step: a task is taken, or the loop is left with an empty queue and the flag set |
| `ThreadPools.Worker.RunTask` | thread_pool/thread_pool.cpp:134 | the task that was taken runs, once, while others go on |
| `ThreadPools.PathKeepsInv` | thread_pool/thread_pool.cpp:112-137 | at every recorded moment of the loop, what was accepted is what has run, is running, is queued |
| `ThreadPools.Worker.Work` | thread_pool/thread_pool.cpp:112-137 | the loop as written, others acting whenever the lock is free, is recorded as a run of the worker's steps; it is left only with everything accepted run |
| `ThreadPools.Worker.Wait` | thread_pool/thread_pool.cpp:124-126 | the wait returns only with work or with the stop flag |
| `ThreadPools.ThreadPool.constructor` | thread_pool/thread_pool.cpp:4-13 | empty workers, index 0, not stopped: the transition system's initial state |
| `ThreadPools.ThreadPool.AddTask` | thread_pool/thread_pool.cpp:29-43 | nothing once stopped; else, undisturbed, one delivery to the worker at the index |
| `ThreadPools.ThreadPool.Stop` | thread_pool/thread_pool.cpp:70-83 | up to its wait: a path of the pool's steps that sets the flag and notifies each worker; it may return exactly if all have counted themselves out |
| `EndToEnd.StepKeepsInv` | dag_scheduler/executor.cpp:21-25 | scheduler and bounded pool together, as long as nothing is refused: every job is the one submission of its task and in the phase its place in a queue implies |
| `EndToEndRuns.NothingIsDropped` | thread_pool/thread_pool.cpp:37-42 | for acyclic graphs in a safe order: with no more tasks than one queue holds, as the code is, no run of the scheduler over the pool has a refused submission, a repeated or an early work; with atomic deliveries, than all queues hold |
| `EndToEndRuns.Progress` | dag_scheduler/scheduler.cpp:40-61 | for acyclic graphs, as long as nothing is refused: until `execute()` returns the scheduler, a submission or a worker can step, so no task is stuck on its way or in a queue |
| `EndToEndRuns.RunsComplete` | dag_scheduler/scheduler.cpp:40-61 | for such graphs and bounds every run over the pool is finite and can end only after the return with all work done exactly once |
| `EndToEndRuns.ReturnsUnlessDropped` | thread_pool/thread_pool.cpp:37-42 | for such graphs over a pool of any size: a run in which a submission is refused never returns, and a run that cannot go on has returned if and only if none was |
| `EndToEndRuns.DroppedStays` | thread_pool/thread_pool.cpp:97-104 | a task whose submission was refused is in no queue and on its way to none, ever after, so nobody begins it |
| `DropRun.SchedulerDrops` | thread_pool/thread_pool.cpp:37-42 | for every limit a graph in a safe order with at most three tasks more, and a run over two workers in which one of the scheduler's own submissions is refused, and which never returns |
| `EndToEndRuns.StoppedPoolServesNobody` | dag_scheduler/scheduler.cpp:14-17 | over a pool that an earlier scheduler's destructor has stopped, `execute()` can return if and only if it has no tasks |
| `Pipeline.SameSchedules` | dag_configor/dag_util.py:218-247 | the simplified dependencies allow exactly the node orders of the generated ones |
| `Pipeline.ReducedSchedulesExact` | dag_configor/dag_util.py:173-247 | so through both functions exactly the height-ordered ones |
| `Pipeline.RealisationExists` | dag_scheduler/task.cpp:47-61 | for all dependencies and every order of `add_task` there is a scheduler whose precede edges are those dependencies |
| `Pipeline.HeightsGovernRuns` | dag_scheduler/task.cpp:19-45 | in every run of a scheduler built on the simplified dependencies, with safe seeding, a node begins only after every node of lower rank on one of its data has ended |
| `Pipeline.RunIsSchedule` | dag_scheduler/scheduler.cpp:40-61 | for such a scheduler, the order in which a returned run ended its nodes is one the dependencies allow |
| `Overlap.RunLeavesSequential` | dag_scheduler/scheduler.cpp:40-61 | for such a scheduler, works overlapping, each reading when it begins and writing when it ends: a returned run still leaves what running the nodes one by one in the order they ended leaves |
| `Overlap.RunsDoAsHeightsSay` | dag_scheduler/scheduler.cpp:40-61 | for such a scheduler that is what any height-ordered sequence of the nodes leaves, in every returned run |
| `Overlap.OverlapIsHarmless` | dag_scheduler/task.cpp:6-17 | for any log: if overlapping works are independent, the data are always those of running one by one, and nobody in work has been disturbed |
| `Overlap.ScheduleRuns` | dag_scheduler/scheduler.cpp:40-61 | conversely every order the dependencies allow is that of a run of a scheduler built on them, which leaves its result |
| `Overlap.DeterministicExactly` | dag_scheduler/scheduler.cpp:40-61 | for such a scheduler any two runs to completion leave the same data, for all well-behaved nodes, if and only if co-writers of one height are always ordered through another datum |
| `OverPool.RunProjects` | dag_scheduler/executor.cpp:21-25 | whatever the pool does, drops included, a run over it is, for the scheduler, one of its own runs |
| `OverPool.HeightsGovernPoolRuns` | dag_scheduler/executor.cpp:21-25 | so over a pool of any size, too, a node begins only after every node of lower rank on one of its data has ended |
| `OverPool.PoolRunsDoAsHeightsSay` | dag_scheduler/executor.cpp:21-25 | and a run that returns leaves what any height-ordered sequence of the nodes leaves |
| `OverPool.PoolDelivers` | dag_scheduler/executor.cpp:21-25 | for no more nodes than the pool is sure to take, every run ends within a stated number of steps, and can end only after the return, leaving that |
| `ConnectionProtocol.StepKeepsInv` | lib/redis-plus-plus/src/sw/redis++/async_connection.cpp:142-234 | every lock section, callback and push keeps conservation, ownership, fates, handshake and wake-up |
| `ConnectionProtocol.NextStageExtends` | lib/redis-plus-plus/src/sw/redis++/async_connection.cpp:326-384 | the nested tests of the five handlers pick the next needed stage and skip none |
| `ConnectionRuns.EventsConserved` | lib/redis-plus-plus/src/sw/redis++/async_connection.cpp:267-313 | the events sent are, in order, those settled with one fate each, those a callback holds, those waiting; after the first failure all fail |
| `ConnectionRuns.SettledForGood` | lib/redis-plus-plus/src/sw/redis++/async_connection.cpp:267-324 | of events that are handled in one call, asking events apart, a fate is never revised |
| `ConnectionRuns.HandedOnlyWhenReady` | lib/redis-plus-plus/src/sw/redis++/async_connection.cpp:267-289 | hand-over happens one event at a time, only in READY with a live context, after all needed stages were sent and answered |
| `ConnectionRuns.BrokenIsFinal` | lib/redis-plus-plus/src/sw/redis++/async_connection.cpp:315-324 | BROKEN is never left and everything settled later fails |
| `ConnectionRuns.FailureMeansBroken` | lib/redis-plus-plus/src/sw/redis++/async_connection.cpp:277-287 | between callbacks a failed event means BROKEN |
| `ConnectionRuns.HandshakeIsExact` | lib/redis-plus-plus/src/sw/redis++/async_connection.cpp:326-454 | the stages sent are a prefix of those needed, and all of them, answered, in READY |
| `ConnectionRuns.ReadyMeansAsked` | lib/redis-plus-plus/src/sw/redis++/async_connection.cpp:508-530 | in READY, AUTH has been sent exactly if there is a password or a user other than the default one, and protocol, name, database and read-only mode exactly if the options ask for them, once each, in this order, each answered |
| `ConnectionRuns.SentByOptions` | lib/redis-plus-plus/src/sw/redis++/async_connection.cpp:326-454 | before that, a first part of the same list |
| `ConnectionRuns.FateByKind` | lib/redis-plus-plus/src/sw/redis++/async_connection.cpp:270-276 | an event that has not failed has been handed over if it is a command and discarded if not |
| `ConnectionRuns.AssertionsHold` | lib/redis-plus-plus/src/sw/redis++/async_connection.cpp:212-216 | the default branch meets only `ENABLE_READONLY`; the context is not null when commands are sent |
| `ConnectionRuns.WaitingIsAnnounced` | lib/redis-plus-plus/src/sw/redis++/async_connection.cpp:142-174 | an event waiting in READY, NOT_CONNECTED or BROKEN while no callback runs is announced to the loop or about to be |
| `Stranding.RunsAwait` | lib/redis-plus-plus/src/sw/redis++/async_connection.cpp:176-220 | between callbacks a connection in CONNECTING has its result to come, and one in a later stage its reply, or has lost exactly that reply |
| `Stranding.StrandedByEmptyReply` | lib/redis-plus-plus/src/sw/redis++/async_connection.cpp:44-48 | a step leaves a connection in its handshake with nothing to come if and only if it is an empty reply during the handshake |
| `Stranding.StrandedSince` | lib/redis-plus-plus/src/sw/redis++/async_connection.cpp:34-97 | in every run, whoever is stranded has been so since an empty reply to one of its stages |
| `Stranding.StrandedForGood` | lib/redis-plus-plus/src/sw/redis++/async_connection.cpp:176-234 | from then on nothing is settled, whatever else arrives, until a disconnect or destruction |
| `Stranding.LeftAloneSettles` | lib/redis-plus-plus/src/sw/redis++/async_connection.cpp:142-220 | liveness: a connection that is not stranded and has a host, left alone and given no empty reply, comes to rest within a stated number of steps, and at rest every event ever sent is settled |
| `Stranding.NoEventStranded` | lib/redis-plus-plus/src/sw/redis++/async_connection.cpp:142-220 | in every reachable state between callbacks, except in WAIT_SENTINEL, some way of being left alone settles all waiting events if and only if the connection is not stranded |
| `Stranding.EmptyReplyStrands` | lib/redis-plus-plus/src/sw/redis++/async_connection.cpp:44-48 | for all options and every stage they need, a run that strands an event in that stage |
| `ConnectionRuns.FailureSettlesAll` | lib/redis-plus-plus/src/sw/redis++/async_connection.cpp:302-324 | from any point of a failure the callback ends with every event settled |
| `ConnectionRuns.DestroyedMeansSettled` | lib/redis-plus-plus/src/sw/redis++/async_connection.cpp:138-140 | after destruction every event ever sent is settled |
| `AsyncConnections.AsyncConnection.Send` | lib/redis-plus-plus/src/sw/redis++/async_connection.cpp:142-150 | the event is queued last and the loop is told |
| `AsyncConnections.AsyncConnection.SendPending` | lib/redis-plus-plus/src/sw/redis++/async_connection.cpp:267-289 | every event sent before the call is settled on return; without a failure all are taken, else the connection is broken |
| `AsyncConnections.AsyncConnection.SendBatch` | lib/redis-plus-plus/src/sw/redis++/async_connection.cpp:270-277 | events are taken from the front, with one call for each command, until a call fails |
| `AsyncConnections.AsyncConnection.FailFrom` | lib/redis-plus-plus/src/sw/redis++/async_connection.cpp:277-287 | the event that threw and all later ones fail with its error |
| `AsyncConnections.AsyncConnection.CleanUp` | lib/redis-plus-plus/src/sw/redis++/async_connection.cpp:302-313 | everything waiting fails with the recorded error, or with "connection is closing" |
| `AsyncConnections.AsyncConnection.FailEvents` | lib/redis-plus-plus/src/sw/redis++/async_connection.cpp:315-324 | state, context and error are set before the clean-up |
| `AsyncConnections.AsyncConnection.Disconnect` | lib/redis-plus-plus/src/sw/redis++/async_connection.cpp:222-230 | broken, no context, everything sent before the call settled |
| `AsyncConnections.AsyncConnection.EventCallback` | lib/redis-plus-plus/src/sw/redis++/async_connection.cpp:152-174 | by state: NOT_CONNECTED, or WAIT_SENTINEL with a host, connects or breaks; READY sends; BROKEN cleans up; the others change nothing; wherever it ends broken all that was sent before is settled |
| `AsyncConnections.AsyncConnection.ConnectWithSentinel` | lib/redis-plus-plus/src/sw/redis++/async_connection.cpp:456-471 | waits until a host is known, then connects |
| `AsyncConnections.AsyncConnection.Connect` | lib/redis-plus-plus/src/sw/redis++/async_connection.cpp:473-495 | one call; CONNECTING with a context if it succeeds, else broken |
| `AsyncConnections.AsyncConnection.ConnectCallback` | lib/redis-plus-plus/src/sw/redis++/async_connection.cpp:176-220 | moves on by exactly one, the next needed stage sent and its reply awaited, or to READY, if and only if all calls into other code succeed; else, or if an error is reported, the connection breaks and everything waiting fails with it; in READY exactly what the options ask for has been sent |
| `AsyncConnections.AsyncConnection.ReplyCallback` | lib/redis-plus-plus/src/sw/redis++/async_connection.cpp:34-97 | an empty reply changes nothing, an error breaks the connection, any other reply moves the handshake on by one or breaks it |
| `AsyncConnections.AsyncConnection.Destroy` | lib/redis-plus-plus/src/sw/redis++/async_connection.cpp:138-140 | no event is left unsettled |
| `Crc16.Crc` | lib/redis-plus-plus/src/sw/redis++/crc16.cpp:86-91 | the loop computes exactly the remainder of the message times x^16 on division by x^16+x^12+x^5+1, whether `char` is signed or not |
| `Crc16.RemainderIsUnique` | lib/redis-plus-plus/src/sw/redis++/crc16.cpp:30-42 | a message has one remainder |
| `Crc16.CrcIsRemainder` | lib/redis-plus-plus/src/sw/redis++/crc16.cpp:30-42 | 16 bits are the remainder if and only if they are the checksum |
| `Crc16.CrcIsLinear` | lib/redis-plus-plus/src/sw/redis++/crc16.cpp:86-91 | the checksum of the bytewise exclusive or of two strings of one length is that of their checksums |
| `Crc16.CheckValue` | lib/redis-plus-plus/src/sw/redis++/crc16.cpp:42 | "123456789" gives 0x31C3 |
| `CrcTable.TableDivides` | lib/redis-plus-plus/src/sw/redis++/crc16.cpp:51-84 | each of the 256 entries is its index divided eight bits further |
| `HashSlot.Slot` | lib/redis-plus-plus/src/sw/redis++/async_shards_pool.cpp:127-155 | the checksum modulo 16384 of the text in the first brace pair if that is not empty, else of the whole key |
| `HashSlot.SameTagSameSlot` | lib/redis-plus-plus/src/sw/redis++/async_shards_pool.cpp:127-155 | whatever surrounds it, a non-empty first tag alone decides the slot, which is that of the tag's text as a key |
| `HashSlot.TagMeansTagged` | lib/redis-plus-plus/src/sw/redis++/async_shards_pool.cpp:138-154 | the keys with a tag are exactly those of that shape |
| `HashSlot.EmptyTagHashesWholeKey` | lib/redis-plus-plus/src/sw/redis++/async_shards_pool.cpp:149-150 | after an empty first pair a later pair is no tag |
| `HashSlot.SlotIsUnique` | lib/redis-plus-plus/src/sw/redis++/async_shards_pool.cpp:127-155 | the specification leaves one slot per key |
| `HashSlot.SlotOfTagged` | lib/redis-plus-plus/src/sw/redis++/async_shards_pool.cpp:138-154 | in bytes and numbers: with 0x7B, a non-empty text without 0x7D, and 0x7D, where no 0x7B comes before, the slot is the checksum of the text modulo 16384 |
| `HashSlot.SlotOfPlain` | lib/redis-plus-plus/src/sw/redis++/async_shards_pool.cpp:138-150 | of a key that is not of that form it is the checksum of the key modulo 16384 |
| `HashSlot.SlotOfEmptyPair` | lib/redis-plus-plus/src/sw/redis++/async_shards_pool.cpp:149-150 | and so it is if 0x7D follows the first 0x7B at once |
| `HashSlot.SlotOfDigits` | lib/redis-plus-plus/src/sw/redis++/async_shards_pool.cpp:143 | the slot of "123456789" is 12739 |
| `HashSlot.EverySlotIsUsed` | lib/redis-plus-plus/src/sw/redis++/async_shards_pool.h:118 | every number below 16384 is the slot of some key |
| `ConnectionPoolSystem.StepKeepsInv` | lib/redis-plus-plus/src/sw/redis++/connection_pool.cpp:76-133 | every critical section of every client keeps all that follows |
| `ConnectionPoolSystem.ConnectionsConserved` | lib/redis-plus-plus/src/sw/redis++/connection_pool.cpp:76-133 | in every interleaving the used count is idle plus borrowed and at most the size; no connection is in two places |
| `ConnectionPoolSystem.WaitsOnlyWhenAllBorrowed` | lib/redis-plus-plus/src/sw/redis++/connection_pool.cpp:195-209 | a fetch sleeps exactly when as many connections as the size are borrowed, and changes nothing |
| `ConnectionPoolSystem.TimeoutMeansAllBorrowed` | lib/redis-plus-plus/src/sw/redis++/connection_pool.cpp:220-229 | in every run a wait that expires fails exactly if at that moment all connections there may be are borrowed, changing nothing else; otherwise it gets the connection put back first, which nobody else has |
| `ConnectionPoolSystem.FirstReturnedFirstTaken` | lib/redis-plus-plus/src/sw/redis++/connection_pool.cpp:125-133 | returned connections are handed out again in the order they came back |
| `ConnectionPoolSystem.NobodyWaitsInVain` | lib/redis-plus-plus/src/sw/redis++/connection_pool.cpp:125-133 | while a client sleeps unsignalled some other client holds a connection or is about to notify or wake |
| `ConnectionPoolSystem.EmptyPoolNeverServes` | lib/redis-plus-plus/src/sw/redis++/connection_pool.cpp:36-56 | with size zero no client ever gets a connection |
| `ConnectionPools.ConnectionPool.Fetch` | lib/redis-plus-plus/src/sw/redis++/connection_pool.cpp:76-117 | takes the longest idle connection, creates one only if none is idle and there is room, times out having changed nothing, returns a connection it cannot re-establish |
| `ConnectionPools.FetchServes` | lib/redis-plus-plus/src/sw/redis++/connection_pool.cpp:195-234 | what the method hands out and leaves is what the transition system does, whether a fetch decides at once, when woken or when its time is up: served exactly if it need not wait at that moment |
| `ConnectionPools.ConnectionPool.WaitForConnection` | lib/redis-plus-plus/src/sw/redis++/connection_pool.cpp:220-234 | waits until the shelf is not empty or the time is over; creates nothing |
| `ConnectionPools.ConnectionPool.Release` | lib/redis-plus-plus/src/sw/redis++/connection_pool.cpp:125-130 | the connection goes to the end of the shelf |
| `ConnectionPools.MakePool` | lib/redis-plus-plus/src/sw/redis++/connection_pool.cpp:25-56 | only the constructor without a sentinel refuses an empty pool |

## Left out

- Confluence.SchedulesAgree: assumes behaviours that read only declared data and write only data held at a non-negative height, which nothing in the source enforces.
- CheckHeight.PipelineExact: assumes one height per node and datum; a node listing a datum twice is not covered there, though `GenerateDag.Generate` and `CheckHeight.CheckHeights` cover it.
- SimplifyNodeDep.Simplify: the stack has `limit` frames, all for the search; a search that would go on without end, or too deep, is the exception of an exhausted stack. The order of a list is left open, as Python leaves it open.
- Pipeline.HeightsGovernRuns: no code in the repository reads the generated file and calls `set_precede`; that the tasks were built from the dependencies (`Realises`) is an assumption, here and in `Pipeline.RunIsSchedule` and `Overlap`.
- OverPool.PoolRunsDoAsHeightsSay: that runs disagree where co-writers are not ordered is proved for the scheduler's runs (`Overlap.DeterministicExactly`) and not for the pool's, whose queues allow fewer orders.
- Overlap.RunsDoAsHeightsSay: a work reads all it reads at its beginning and writes all it writes at its end; reads and writes in between are not told apart.
- ExecutionRuns.RunsComplete: needs safe seeding, as do `ExecutionRuns.CountersExact`, `DependencySafety`, `ExactlyOnce`, `Progress`, `Pipeline`, `Overlap` and `OverPool`; without it they are false, as `RacingScan` and `EarlyReturns` show. One `execute()` with every precede edge's ends added to the scheduler once, since counters are not reset; `condition_` has no initialiser and is taken as 0.
- PoolBounds.NeverRefused: `worker_num` times `tasks_size` holds only with atomic deliveries (`atomic`), which the source does not have; without them the bound is `tasks_size`, and both are exact.
- EndToEndRuns.RunsComplete: nobody calls `stop()` while `execute()` runs, the scheduler is the pool's only client, and spurious wake-ups, which by `PoolRuns.NoLostWakeUp` find nothing, are not steps. With more tasks than one queue holds it speaks of atomic deliveries only; `EndToEndRuns.ReturnsUnlessDropped` speaks of all.
- PoolRuns.DrainOnStop: safety only, for one call of `stop()`. It sets its flag and notifies outside the mutexes the waiters hold, so that it returns is not claimed.
- Stranding.NoEventStranded: in WAIT_SENTINEL whoever learns the node's address has to wake the loop; that code is not part of this model.
- AsyncConnections.AsyncConnection.Handle: one call per event, here and in `ConnectionRuns`. An asking event makes two (async_connection.h:410-424), and if the second fails hiredis still holds the event that has failed; that second fate is not modelled.
- AsyncConnections.AsyncConnection.Connect: calls into hiredis and TLS succeed or fail arbitrarily, and only that is recorded of them (`calls`); replies come at most once per command and callbacks are not nested.
- ConnectionPools.ConnectionPool.Fetch: time, health checks and the sentinel's role change are parameters; moving and cloning a pool are not modelled.
- Crc16.Crc: lengths are not bounded by `int`.
- `ThreadPool::add_task_async` and the executor's plumbing: they add nothing to the protocol.
- `Worker::work_steal_` and `dag_configor/dag_modifier.py`: empty.
- Interface and JSON parsing, graph drawing, `access_control`, the log service, the timer, the dynamic factory and the Thrift services: text, files, clocks and generated code.
- The rest of redis-plus-plus: command formatters, typed wrappers and cluster templates.
