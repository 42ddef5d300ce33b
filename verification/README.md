# FastRules, a verified model

FastRules is a C++ rules engine: rules hold a Lua expression and a Lua action, may own child
rules, may depend on one other rule by name, and are grouped into workflows that run them one
at a time, as a stream, or in parallel batches over a pool of engines. This project models the
code around the Lua evaluator, which is treated as an oracle, and proves what that code is
for. `dafny verify dfyconfig.toml` checks all of it.

| files | what they model |
|---|---|
| `ThreadPool.dfy` | the work-stealing thread pool and its drain on shutdown, as a step system over all interleavings |
| `EnginePool.dfy` | the lock-free engine pool (a Treiber stack of reference-counted nodes), as a step system in which freed addresses are reused |
| `WorkStealingDeque.dfy`, `RingDeque.dfy` | the lock-free deque under interleaved single loads, stores and swaps; the growing ring buffer for calls that do not overlap |
| `Chains.dfy`, `Rules.dfy`, `PrioritySort.dfy` | the graph of at most one dependency per rule, how names induce it, and the stable sort inside a level |
| `DependencyLevels.dfy`, `CycleChecks.dfy` | the two level builders, the depth-first cycle check, the chain walks and the builder's check |
| `SequentialExecution.dfy`, `Passing.dfy`, `ParallelExecution.dfy` | plain, traced, streaming and batched-parallel execution, and which rules they report as successful |
| `CompiledRefs.dfy` | per-engine compiled references, with engine resets that restart the numbering |
| `ResultCache.dfy`, `RuleTree.dfy`, `RateLimiter.dfy` | the bounded result cache and its keys, executing a rule with its children, the sliding-window limiter |
| `TreeOracle.dfy` | what the workflow results assume of single executions, derived from the execution of rule trees |
| `SandboxAllocator.dfy` | the memory-capping allocator |
| `CompilationLevels.dfy`, `ParallelCompilation.dfy` | levels for parallel compilation, and the claim loop of the compiling threads |
| `ResultFormat.dfy` | the result string of the C API and its Python reader |
| `Common.dfy`, `Text.dfy`, `Results.dfy` | shared types, decimal notation, splitting and joining, C strings, rule results |

How the pieces are modelled. A concurrent structure is a state with one program counter per
thread, an `Action` per atomic step, and `IsRun`, which says that a list of states is a run
under some interleaving; the main results quantify over every run and every state in it.
Loops that update variables are methods with loops; objects whose fields change are classes.
Maps that C++ traverses in unspecified order are traversed in an arbitrary order, so the
results hold for every order. Clock readings, what Lua answers, how much memory Lua uses,
random choices and what the C library's `realloc` returns are parameters or arbitrary choices.

What is asked of a workflow (`Rules.Valid`, `Passing.Validated`): rule ids are unique; two
rules share a name only if both are unnamed; a dependency name is non-empty and free of NUL;
for the execution results also that every dependency exists and that no two rules share a
context key, and that children write no top-level key.

## What was found

- The depth-first check uses -1 for "not found", so a dependency on a rule numbered -1 is not
  followed. It throws exactly if some chain never ends and never comes to such a rule
  (`CycleChecks.DfsMissesExactly`); `CycleChecks.SentinelHidesACycle` gives a two-rule cycle it
  misses. The chain walks stop at id 0 in the same way (`CycleChecks.ChainWalksMissExactly`).
- The level loop of `AsyncWorkflow` has no cycle test of its own and relies on that check, which
  compiling runs first. It ends exactly on workflows without a cycle
  (`DependencyLevels.AsyncLoopEndsIffAcyclic`), so on those that slip through the check
  (`CycleChecks.SlipsThroughIff`), such as the two rules above, it never ends, and
  `Workflow` throws at run time while ordering.
- `Rule::compile` records the generation the engine had when compilation began. If the engine
  resets itself during the call, the fresh record is stale at once, `getExpressionRef` answers
  -1 although the expression is not blank, and `evaluateExpression` reads that as "no
  expression" and lets the rule pass. `CompiledRefs.CompiledRule.EvaluateExpression` states
  exactly when, as a function of the state before the call; `CompiledRefs.LeafResetsIff` spells
  it out for a rule without children, and `CompiledRefs.FalseExpressionPasses` is an instance.
- A cache hit returns a result without writing the context, and plain `execute` does not write
  it either, so a dependent rule is dropped there but runs under the traced and streaming forms
  (`SequentialExecution.CacheHitSeparatesThem`). The two report the same results exactly if no
  active rule whose dependency chain passes depends directly on a cached rule
  (`Passing.PlainEqualsTracedIff`).
- A caller that passed the stop check before the destructor began may push after the last
  worker left; such a task never runs, whatever the number of threads
  (`ThreadPool.LateCallerCanStrandATask`). The comment at the stop check says that this is
  prevented.
- Cache keys of differently typed values, of texts holding separators, or of values printed
  alike can coincide (`ResultCache.CacheKeyCollides`; `ResultCache.SameKeyIffSameTexts` says
  exactly when, for texts without separators), although the header calls the key unique. Escaping is not
  injective on texts that already hold a code (`ResultFormat.EscapeCollides`,
  `ResultFormat.SameEncodingIff`).
- The last level of `buildCompilationLevels` holds rules of a child cycle, as its comment says,
  but also every rule that lists a top-level child twice and whatever waits for it
  (`CompilationLevels.LeftOverIffStuck` says exactly which rules).
- The limiter is called a token bucket in its header; the code is a sliding window. A positive
  burst size replaces the per-second limit instead of adding to it.

## Model

| member | source | states |
|---|---|---|
| ThreadPool.AtMostOnce | src/work_stealing_thread_pool.cpp:44-109 | in every state of every interleaving, each task has been started at most once, and nothing that was never enqueued runs |
| ThreadPool.ShutdownDrains | src/work_stealing_thread_pool.cpp:33-109 | once all workers have left, every task pushed before the destructor began or from inside a running task has run exactly once, although the emptiness scan is not atomic |
| ThreadPool.ShutdownLeavesNothing | src/work_stealing_thread_pool.cpp:33-42 | if no outside caller pushed after the destructor began, shutdown leaves every queue empty and every task run exactly once |
| ThreadPool.LateCallerCanStrandATask | include/fastrules/work_stealing_thread_pool.hpp:63-89 | for every number of threads there is a run in which a caller past the stop check pushes after the last worker left: its task never runs |
| ThreadPool.StepConserves | include/fastrules/simple_work_stealing_queue.hpp:42-83 | every step of every thread moves tasks between queues, workers and the finished list without loss or copy; only an enqueue adds one |
| ThreadPool.StepKeepsGuard | src/work_stealing_thread_pool.cpp:93-103 | a queue holding a promised task always has a live worker whose scan has not passed it |
| ThreadPool.RunKeepsInv | src/work_stealing_thread_pool.cpp:10-109 | the pool invariant holds in every state of every run, for any thread count including zero |
| ThreadPool.QueuesAreServed | src/work_stealing_thread_pool.cpp:55-74 | a worker takes the newest task of its own queue or the oldest of another's, turns to stealing only when its own queue is empty, passes a victim over only if there is nothing to take, and gives up only after two probes per queue; a push goes to the back, and is promised to run if it comes from a running task or before the destructor begins |
| ThreadPool.IdleWorkerCanHelp | src/work_stealing_thread_pool.cpp:49-74 | whenever tasks are queued anywhere, a worker at the top of its loop can take one up within three steps |
| ThreadPool.NobodyAdmittedAfterStop | include/fastrules/work_stealing_thread_pool.hpp:66-71 | once the destructor has begun nobody passes the stop check: the tasks still to come are at most those whose enqueue was past it |
| ThreadPool.ShutdownCanComplete | src/work_stealing_thread_pool.cpp:33-109 | from every state of every run in which the destructor has begun, the workers can all leave with every promised task run: the pool is never stuck |
| EnginePool.HistoryIsLegal | include/fastrules/engine_pool.hpp:131-216 | the successful swaps and empty answers, in order, replay as a legal history of an atomic last-in-first-out stack, ending in the present stack and holdings |
| EnginePool.EnginesConserved | include/fastrules/engine_pool.hpp:131-216 | in every state each engine is in exactly one place, the stack or one thread; none is lost and none appears from nowhere |
| EnginePool.SwapsSeeTheNodeTheyRead | include/fastrules/engine_pool.hpp:151-178 | no ABA: when a swap is due, the node and the successor read before are still what the heap holds, although freed addresses are reused; a node under construction is not reachable |
| EnginePool.StepRefines | include/fastrules/engine_pool.hpp:131-216 | each load, link or swap step is invisible or is one atomic stack operation |
| EnginePool.EmptyAnswerRefines | include/fastrules/engine_pool.hpp:176-206 | the "empty" answer of pop and tryPop is given while the stack is empty |
| EnginePool.CallsEndProperly | include/fastrules/engine_pool.hpp:131-216 | in every step of every run one thread moves, and its call ends only with one event of its own: a pop with the top engine, which it then holds, or while the stack is empty; a push with its engine on top. Otherwise nothing is logged and the call stays the call it was |
| EnginePool.PatientUntilDeadline | include/fastrules/engine_pool.hpp:191-216 | tryPop gives up only at a load made after its deadline |
| EnginePool.LeftAloneFinishes | include/fastrules/engine_pool.hpp:131-216 | from every state of every run, a thread in the middle of a call ends it within five steps of its own if the others pause and no swap fails spuriously |
| WorkStealingDeque.HistoryIsLegal | include/fastrules/work_stealing_queue.hpp:106-174 | for one owner and any number of thieves, interleaved step by step, the completed operations are a legal history of a double-ended queue equal to the slots from head to the owner's end |
| WorkStealingDeque.ItemsConserved | include/fastrules/work_stealing_queue.hpp:106-174 | pushed items are exactly those handed out plus those still in the deque, so none is handed out twice or lost |
| WorkStealingDeque.StepRefines | include/fastrules/work_stealing_queue.hpp:106-174 | every micro-step keeps the invariant and either changes nothing visible or performs one operation of the abstract deque |
| WorkStealingDeque.PopStepRefines | include/fastrules/work_stealing_queue.hpp:123-151 | the owner's reserve, read, compare and restore steps, including the race for the last item |
| WorkStealingDeque.ThiefStepRefines | include/fastrules/work_stealing_queue.hpp:158-174 | a thief's successful swap removes the item at the front and hands out exactly that item |
| WorkStealingDeque.CallsEndProperly | include/fastrules/work_stealing_queue.hpp:106-174 | in every step of every run the owner or one thief moves: a pop is settled once, with the back item or on an empty deque; a push returns with its item at the back; a thief comes away with the front item, or is told "empty" only if the deque is empty, head has moved on or the owner holds an unsettled pop of the only item, or loses the race only if head has moved on |
| WorkStealingDeque.CallsAreBounded | include/fastrules/work_stealing_queue.hpp:106-174 | every call ends after at most five steps of its own, whatever the others do |
| WorkStealingDeque.StepsAreEnabled | include/fastrules/work_stealing_queue.hpp:106-174 | in every state of every run each call can take its next step, except a push that would have to grow the buffer |
| WorkStealingDeque.HeadCountsItems | include/fastrules/work_stealing_queue.hpp:132-173 | between any two states of a run, at least as many items were handed out as head moved on |
| WorkStealingDeque.LostRaceIsExcused | include/fastrules/work_stealing_queue.hpp:167-171 | a thief comes away from its swap with nothing only if an item was handed out since it read head |
| RingDeque.RingDeque.constructor | include/fastrules/work_stealing_queue.hpp:91-99 | an empty queue |
| RingDeque.RingDeque.Resize | include/fastrules/work_stealing_queue.hpp:66-85 | doubling keeps the queue's contents, in order |
| RingDeque.RingDeque.Push | include/fastrules/work_stealing_queue.hpp:106-116 | the item is appended at the back; the buffer doubles exactly if it is full but for one slot |
| RingDeque.RingDeque.Pop | include/fastrules/work_stealing_queue.hpp:123-151 | the item at the back is removed, or "empty" exactly for an empty queue |
| RingDeque.RingDeque.Steal | include/fastrules/work_stealing_queue.hpp:158-174 | the item at the front is removed, or "empty" exactly for an empty queue |
| Chains.CycleIffSomeWalkNeverEnds | src/rule.cpp:394-442 | a cycle exists exactly if some dependency chain never ends |
| Chains.EndsIgnoring | src/rule.cpp:417-439 | leaving out the edges into one id cuts exactly the chains that come to it |
| Rules.EdgeIsName | src/workflow.cpp:801-811 | comparing a dependency with a rule's name is following the edge of the dependency graph |
| Rules.SearchByName | src/workflow.cpp:804-809 | scanning part of the id map for the dependency's name succeeds exactly if the dependency is in that part |
| PrioritySort.SortSorted | src/workflow.cpp:832-835 | priorities ascend within a level |
| PrioritySort.SortStable | src/workflow.cpp:832-835 | rules of equal priority keep their order |
| PrioritySort.StableSortUnique | src/workflow.cpp:832-835 | sortedness and stability leave one possible result, so the model's sort is the library's |
| DependencyLevels.CountDependencies | src/workflow.cpp:792-811 | the counters start at one exactly for the rules whose dependency exists |
| DependencyLevels.ReadyRules | src/workflow.cpp:818-826 | after k turns the rules with counter zero are those whose chain has k edges, in insertion order |
| DependencyLevels.Release | src/workflow.cpp:841-847 | taking a rule out lowers exactly the counters of the rules that depend on it |
| DependencyLevels.Retire | src/workflow.cpp:837-848 | taking out a whole level leaves the other rules with correct counters |
| DependencyLevels.TakeLevel | src/workflow.cpp:815-853 | one turn takes out the stably sorted rules of depth k; nothing ready means there is a cycle |
| DependencyLevels.BuildDependencyLevels | src/workflow.cpp:790-855 | throws exactly if the dependency graph has a cycle; otherwise level k is the stable priority sort of the rules of depth k, and every rule has a level |
| DependencyLevels.ResolveExecutionOrder | src/workflow.cpp:777-788 | the order is the levels one after another |
| DependencyLevels.LevelOfRule | src/workflow.cpp:790-855 | a rule is in level k exactly if its dependency chain has k edges |
| DependencyLevels.DependencyIsEarlier | src/workflow.cpp:790-855 | a dependency sits in the level just before |
| DependencyLevels.LevelIsStablySorted | src/workflow.cpp:832-835 | each level is sorted by priority and keeps insertion order among equals |
| DependencyLevels.OrderIsPermutation | src/workflow.cpp:777-788 | the execution order is a permutation of the rules |
| DependencyLevels.UnblockedRules | src/async_workflow.cpp:121-132 | one pass of the asynchronous loop finds exactly the rules of depth k |
| DependencyLevels.TakeUnblocked | src/async_workflow.cpp:120-135 | without a cycle each turn removes at least one rule |
| DependencyLevels.AsyncLevels | src/async_workflow.cpp:115-136 | without a cycle the loop ends, and level k is the set of rules of depth k |
| DependencyLevels.BuildersAgree | src/async_workflow.cpp:115-136 | level by level the two builders hold the same rules |
| DependencyLevels.AsyncLoopEndsIffAcyclic | src/async_workflow.cpp:115-136 | the asynchronous loop ends exactly if there is no cycle |
| CycleChecks.LookUpDependency | src/workflow.cpp:874-883 | the lookup follows the edge of the graph, except that an edge into id -1 counts as none |
| CycleChecks.Dfs | src/workflow.cpp:871-896 | a search that returns "found" has met a cycle; otherwise every node it finished starts a chain that ends |
| CycleChecks.CheckCircularDependencies | src/workflow.cpp:857-903 | throws exactly if the graph it sees has a cycle, in whatever order the map is traversed |
| CycleChecks.DfsMissesExactly | src/workflow.cpp:877-891 | the check throws exactly if some chain never ends and never comes to id -1 |
| CycleChecks.SlipsThroughIff | src/async_workflow.cpp:110-136 | the workflows that pass the check and still have a cycle, which the asynchronous loop then never leaves: exactly those with an endless chain all of whose endless chains come to id -1 |
| CycleChecks.SentinelHidesACycle | src/workflow.cpp:877-891 | a cycle of two rules, one numbered -1, that the check does not see; on these rules the level builder throws and the asynchronous loop never ends |
| CycleChecks.HasCircularDependency | src/rule.cpp:394-442 | for any rule and list: true exactly if the chain from the rule's dependency, as the walk sees it, never ends or comes back to the rule; for a rule of the list, exactly if its own chain never ends |
| CycleChecks.GetDependencyChain | src/rule.cpp:444-493 | for any rule and list: the rule's id and then the ids along the chain, all of them if it ends, otherwise up to the first one met again |
| CycleChecks.ChainWalksMissExactly | src/rule.cpp:417-439 | the chain walks call a chain endless exactly if it never ends and never comes to id 0 |
| CycleChecks.BuilderDependsOn | include/fastrules/rule.hpp:881-933 | declaring a dependency throws exactly if the chain from the named rule leads back to the rule under construction |
| CycleChecks.BuilderMissesExactly | include/fastrules/rule.hpp:907-928 | the builder misses a way back exactly if it leads through a rule numbered 0 |
| CycleChecks.ChecksShareTheGraph | src/workflow.cpp:857-903 | away from ids 0 and -1 all walks and builders see the same graph |
| CycleChecks.ViewsAgree | src/workflow.cpp:828-903 | without those ids: the check throws iff the level builder throws iff some rule reports a circular dependency iff the asynchronous loop never ends |
| SequentialExecution.Execute | src/workflow.cpp:397-439 | for any oracle, with the environments before each rule as witness: a rule that is active and whose dependency has a success on record runs in what the rule before it left and hands on what it leaves; any other rule changes nothing; the results are the answers not marked as skipped, in order |
| SequentialExecution.ExecuteWithTrace | src/workflow.cpp:441-517 | the same, with each result recorded under its rule's key before the next rule |
| SequentialExecution.PassTrace | src/workflow.cpp:412-435 | that trace exists for the pass the three forms compute |
| SequentialExecution.KeysClashIff | include/fastrules/rule.hpp:410-412 | a named rule's key is its name; two rules share a key exactly if one is unnamed and the other is named "#" and its id |
| SequentialExecution.StreamingResult.constructor | src/workflow.cpp:734-748 | a new stream has the whole traced pass ahead of it |
| SequentialExecution.StreamingResult.Next | src/workflow.cpp:749-774 | yields the next reported result and leaves exactly the rest, or ends when nothing is left |
| SequentialExecution.StreamingResult.Drain | include/fastrules/streaming_result.hpp:32-73 | iterating to the end yields the same results and final context as the traced form |
| SequentialExecution.PlainAgreesWithTraced | src/workflow.cpp:397-439 | for any oracle: the plain form gives the same results and context when every execution of a rule of the order records its own result |
| SequentialExecution.CacheHitSeparatesThem | src/rule.cpp:549-567 | two cached rules on which the plain form reports one result and the traced form two |
| Passing.PassesStep | src/workflow.cpp:418-426 | a chain passes exactly if its first rule is active and passes and the chain from its dependency passes |
| Passing.SequentialReportsPassing | src/workflow.cpp:397-439 | one result per active rule whose dependency succeeded, successful exactly if the rule's whole chain is active and passes |
| Passing.PassReports | src/workflow.cpp:397-517 | the same for the plain and for the recording loop when any set of rules is answered from caches: what a cache answers to the plain loop counts as not seen by the rules that depend on it |
| Passing.PlainEqualsTracedIff | src/workflow.cpp:412-435 | for fixed results and any set of cached rules, plain and traced results are equal exactly if no active rule whose dependency chain passes depends directly on a cached rule |
| Passing.OrderFacts | src/workflow.cpp:777-788 | in the execution order no rule repeats and every dependency comes first |
| ParallelExecution.GatherPending | src/workflow.cpp:539-546 | the active rules of a level, in order |
| ParallelExecution.CutBatches | src/workflow.cpp:548-550 | consecutive batches of at most the pool's size |
| ParallelExecution.ChunksAreFull | src/workflow.cpp:548-550 | every batch of a level but the last has the size of the pool |
| ParallelExecution.PlanBatches | src/workflow.cpp:535-550 | the batches of all levels, in order |
| ParallelExecution.BatchesFlatten | src/workflow.cpp:538-550 | batching loses, repeats and reorders nothing |
| ParallelExecution.PlanIsReady | src/workflow.cpp:535-550 | every batch fits the pool, and a rule's active dependency is in an earlier batch |
| ParallelExecution.NoTaskStarves | src/workflow.cpp:563-570 | in every interleaving a waiting task finds an engine in the pool, and none is turned away |
| ParallelExecution.PoolRestored | src/workflow.cpp:578-592 | when all tasks of a batch have left, by any exit path, the pool holds exactly its original engines |
| ParallelExecution.ParallelReportsPassing | src/workflow.cpp:519-613 | a run not abandoned by an exception reports every active rule once, in level order, as successful exactly if its whole chain is active and passes |
| ParallelExecution.ContextTellsReports | src/workflow.cpp:598-608 | the final context holds under each reported rule's key what its report says |
| ParallelExecution.EveryTaskCanProceed | src/workflow.cpp:556-594 | in every state of every run each task that has not ended can take its next step, whatever the others are doing |
| ParallelExecution.RunsCanFinish | src/workflow.cpp:548-609 | from every state of every run in which no rule has thrown, the run can be completed |
| ParallelExecution.RunKeepsInv | src/workflow.cpp:551-609 | engines, context and reports are right in every state of every run |
| ParallelExecution.ExecutionsAgree | src/workflow.cpp:397-613 | for every interleaving, parallel execution returns one report per active rule and reports success for exactly the rules that sequential execution reports as successful |
| CompiledRefs.LuaEngine.ResetState | src/lua_engine.cpp:954-978 | a new generation, an empty registry, numbering from 1 |
| CompiledRefs.LuaEngine.Allocate | src/lua_engine.cpp:565-598 | a fresh reference to the chunk, possibly after a self-reset; older references of the same generation stay as they were |
| CompiledRefs.LuaEngine.CompileExpression | src/lua_engine.cpp:550-599 | fails exactly for too long or unloadable text, gives no reference exactly for blank text, otherwise one that leads to this expression |
| CompiledRefs.LuaEngine.CompileAction | src/lua_engine.cpp:601-642 | the same for actions, where only the empty text gives no reference |
| CompiledRefs.CompiledRule.CompileOwn | src/rule.cpp:204-254 | success, numbering and usable records afterwards are the stated function of the state before; the record for a rule's two chunks is right for the engine's present state, even after a self-reset between the two |
| CompiledRefs.CompiledRule.CompileChildren | src/rule.cpp:256-259 | the children are compiled in order until one fails, and the parent's record stays right meanwhile |
| CompiledRefs.CompiledRule.Compile | src/rule.cpp:194-267 | success, numbering and usable records afterwards are the stated function of the state before; all records stay right; the rule has a usable record exactly if the engine did not reset itself meanwhile |
| CompiledRefs.CompiledRule.GetExpressionRef | src/rule.cpp:741-751 | a reference leads to a chunk of the present expression; -1 exactly for a blank expression or if, by the state before the call, compiling makes the engine reset itself |
| CompiledRefs.CompiledRule.GetActionRef | src/rule.cpp:753-760 | the same for the action |
| CompiledRefs.CompiledRule.EvaluateExpression | src/rule.cpp:725-731 | the verdict is that of the present source, except that the rule passes unevaluated exactly if, by the state before the call, compiling makes the engine reset itself |
| CompiledRefs.SucceedsIffCompiles | src/rule.cpp:194-267 | with self-resets off, compiling succeeds exactly if the rule has a usable record or its source and, in turn, all its children compile; no other rule matters |
| CompiledRefs.CompilableTreeSucceeds | src/rule.cpp:194-267 | whatever resets happen, a rule whose own tree compiles is compiled |
| CompiledRefs.OwnSourceFirst | src/rule.cpp:208-259 | a rule whose own source does not compile fails before any of its children is compiled |
| CompiledRefs.SuccessNeedsCompiling | src/rule.cpp:194-267 | whatever resets happen, success needs a usable record or a rule whose source and, in turn, all its children compile |
| CompiledRefs.LeafResetsIff | src/lua_engine.cpp:565-622 | for a rule without children the self-reset happens exactly if there is no usable record and memory is over the threshold when the expression or the action is about to be compiled |
| CompiledRefs.FalseExpressionPasses | src/rule.cpp:725-731 | an engine and a compilable rule whose expression Lua finds false, and which passes |
| CompiledRefs.Process.NewEngine | src/lua_engine.cpp:250-254 | an engine gets a number never used before, so no rule has a record for it |
| CompiledRefs.Process.Reset | src/lua_engine.cpp:954-978 | no record survives a reset, although numbering restarts |
| CompiledRefs.Process.Edit | src/rule.cpp:178-183 | editing the source at any time keeps every promise |
| CompiledRefs.Process.CompileRule | src/rule.cpp:194-267 | compiling into one engine disturbs no record of any engine; with self-resets off it succeeds exactly if the rule's own tree compiles or has records |
| CompiledRefs.Process.ExpressionRef | src/rule.cpp:741-751 | after any run of the operations above: references are right; with self-resets off there is an answer exactly if the rule's own tree compiles or has records, and it is a reference exactly for a non-blank expression |
| CompiledRefs.Process.ActionRef | src/rule.cpp:753-760 | the same for actions |
| RateLimiter.DropOlder | src/rate_limiter.cpp:261-269 | what is left of a window counts exactly the admissions of the whole history inside it |
| RateLimiter.CleanupOldEntries | src/rate_limiter.cpp:256-270 | after the cleanup both windows count exactly the recent admissions |
| RateLimiter.Decide | src/rate_limiter.cpp:115-147 | one decision against the whole history: admitted exactly if limits are off or each limited window holds fewer than a quota |
| RateLimiter.Limiter.IsAllowed | src/rate_limiter.cpp:103-148 | the same per rule name; an unknown rule is always admitted, other rules are untouched |
| RateLimiter.Limiter.Configure | src/rate_limiter.cpp:162-165 | a new configuration keeps the recorded admissions |
| RateLimiter.Limiter.CurrentPerSecond | src/rate_limiter.cpp:207-217 | the exact number of admissions within the last second |
| RateLimiter.Limiter.CurrentPerMinute | src/rate_limiter.cpp:228-237 | the exact number of admissions within the last minute |
| RateLimiter.AdmissionsAreSpaced | src/rate_limiter.cpp:103-148 | in every run of calls the k-th and (k + burst)-th admissions are more than a second apart, and likewise a minute for the minute limit |
| RateLimiter.DenialIsJustified | src/rate_limiter.cpp:125-141 | a denial happens only when some limited window really holds a full quota of admissions |
| RateLimiter.AnswerCalls | src/rate_limiter.cpp:103-148 | for any history of calls, over the answers they got: calls allowed a quota apart are more than a second, or a minute, apart for each limit that is set, where a positive burst size replaces the per-second quota; a call is refused only if such a window was full of allowed calls |
| ResultCache.BuildCacheKey | src/rule.cpp:123-157 | the loop writes the id and, for each parameter, its name and the text of its value |
| ResultCache.SameKeyIffSameTexts | src/rule.cpp:123-157 | with names free of '=' and texts free of ';', keys coincide exactly if the rule is the same and names and texts agree position by position |
| ResultCache.CacheKeyInjective | src/rule.cpp:123-157 | for integers, booleans and texts of the same types, equal keys mean equal parameters |
| ResultCache.CacheKeyCollides | src/rule.cpp:123-157 | no restriction can be dropped |
| ResultCache.DropExpired | src/rule.cpp:504-511 | exactly the expired entries go |
| ResultCache.Oldest | src/rule.cpp:514-519 | an entry with the least expiry, in whatever order the map is traversed |
| ResultCache.MakeRoom | src/rule.cpp:503-524 | a full cache drops its expired entries; only if there are none does it drop one live entry, with the least expiry |
| ResultCache.Cache.Find | src/rule.cpp:549-567 | a hit exactly for an unexpired entry, and then the result stored last under that key since the last invalidation; a dead entry is removed |
| ResultCache.Cache.Store | src/rule.cpp:495-532 | at most 1024 entries always; only a new key in a full cache displaces anything, as MakeRoom says |
| ResultCache.Cache.Invalidate | src/rule.cpp:819-824 | nothing stored before can be returned any more |
| RuleTree.Execute | src/rule.cpp:544-705 | the call computes the outcome that the next six rows speak about, children included |
| RuleTree.SucceedsIff | src/rule.cpp:549-704 | a call is answered from the cache exactly if caching is on and a usable entry is there; otherwise it succeeds exactly if the rule is active and admitted, all children succeed, its expression holds and its action does not throw, each asked in the world the earlier steps left; what is complained about, recorded and cached |
| RuleTree.OwnIdKept | src/rule.cpp:569-579 | unless served from the cache, a result carries its rule's id and name, and an exception exactly if it is neither a success nor skipped |
| RuleTree.ResultsAreHonest | src/rule.cpp:115-121 | a result claims success exactly if everything below it succeeded, cached results included |
| RuleTree.OtherKeysKept | src/rule.cpp:616-621 | no context key outside the rule's tree is touched |
| RuleTree.EventsAreInOrder | src/rule.cpp:611-655 | an action runs only after all children of its rule returned successfully and its expression was found true; a call returns success only after everything was done, failure only for a reason |
| RuleTree.EventsAreTrue | src/rule.cpp:550-562 | an expression counts as held, and an answer as served, only where the oracle said so |
| TreeOracle.TreesAnswer | src/rule.cpp:544-705 | executing the rules' trees answers as the workflow results assume: recorded unless served from the cache, other top-level results left alone |
| TreeOracle.UncachedTreesAreSteady | src/rule.cpp:549-705 | with caching off every execution is recorded, so the comparisons of plain, traced and parallel execution apply |
| SandboxAllocator.SandboxState.constructor | src/sandbox.cpp:437-444 | installing starts the count at zero on a state that may already own blocks |
| SandboxAllocator.SandboxState.LimitAlloc | src/sandbox.cpp:48-71 | freeing answers null; a request gets what the C library grants exactly if there is no limit or the count, less the block given up but not below zero, plus the new size is within it; the count and the blocks afterwards |
| SandboxAllocator.GrantedIffWithinLimit | src/sandbox.cpp:60-69 | in every state of every run the same condition decides, without wrap-around, and a refusal changes nothing |
| SandboxAllocator.GrantedIffBytesFit | src/sandbox.cpp:60-69 | from an empty start: granted exactly if the live bytes without the block given up, plus the new size, are within the limit |
| SandboxAllocator.FreeingGivesBack | src/sandbox.cpp:53-57 | freeing removes the block and its bytes, from the count as far as it reaches |
| SandboxAllocator.StepKeepsBounds | src/sandbox.cpp:48-71 | the count never exceeds live bytes, live bytes never exceed the baseline plus the count, and the count never crosses the limit |
| SandboxAllocator.RunStaysCapped | src/sandbox.cpp:48-71 | over every run of calls: count at most the limit, live bytes at most those at installation plus the limit, and an exact count from an empty start |
| SandboxAllocator.HistoryStaysBounded | src/sandbox.cpp:424-445 | however the limit is changed during a run, the count stays within the live bytes, and those within the bytes at installation plus the count |
| SandboxAllocator.CapHoldsFrom | src/sandbox.cpp:424-445 | once the count is within a cap that no later limit exceeds, it stays within it; lowering the limit takes nothing back |
| CompilationLevels.CountChildren | src/workflow.cpp:331-343 | the in-degree counts the listed children that are top-level, repetitions included |
| CompilationLevels.Relax | src/workflow.cpp:360-374 | finishing one rule lowers each remaining parent's count once, and collects those that reach zero |
| CompilationLevels.PlaceLevel | src/workflow.cpp:353-375 | one turn places a level whose children are all placed before it |
| CompilationLevels.BuildCompilationLevels | src/workflow.cpp:316-391 | every rule is placed exactly once; in the regular levels children come strictly before their parents and some child comes just before; what is left over makes one last level |
| CompilationLevels.ReadyHasChild | src/workflow.cpp:360-374 | a rule that became ready when a level was placed has a child in that level |
| CompilationLevels.LeftoversAreHeld | src/workflow.cpp:377-388 | a rule that never became ready lists a child twice or has a child that never became ready |
| CompilationLevels.LeftOverIffStuck | src/workflow.cpp:377-388 | a rule is left over exactly if a cycle or a repeated child can be reached from it |
| CompilationLevels.LevelIffLongestChain | src/workflow.cpp:353-375 | a rule is in regular level k exactly if it is not left over and its longest chain of children has k steps, so no rule comes later than it must |
| CompilationLevels.NothingLeftIff | src/workflow.cpp:377-388 | nothing is left over exactly if the child graph has no cycle and no child is listed twice |
| ParallelCompilation.StepKeepsInv | src/workflow.cpp:216-270 | each position handed out by the counter is compiled or being compiled at most once, and exactly once unless a clone or a compilation failed in this level |
| ParallelCompilation.EarlierLevelsFinished | src/workflow.cpp:211-270 | while a level is worked on, errors or not, every rule of every earlier level has been compiled exactly once and no rule of a later one was touched |
| ParallelCompilation.EachRuleCompiledOnce | src/workflow.cpp:216-270 | after the last join the claim loop has compiled every position exactly once |
| ParallelCompilation.TeamIsSized | src/workflow.cpp:258-263 | a level is worked on by as many threads as asked for, but no more than it has rules, and at least one |
| ParallelCompilation.FailureStops | src/workflow.cpp:216-216 | after a failure no further level is begun |
| ParallelCompilation.RunsCanFinish | src/workflow.cpp:216-270 | from every state of every run in which nothing has failed, all levels can be compiled |
| ParallelCompilation.ChildrenCompiledFirst | src/workflow.cpp:203-270 | end to end: in every run over the built levels, a rule of a regular level is being compiled only when all its top-level children have been |
| ParallelCompilation.ChildrenAlwaysFirst | src/workflow.cpp:203-270 | without cycles and repeated children that holds for every rule |
| ParallelCompilation.EveryRuleCompiled | src/workflow.cpp:203-282 | after the last join every rule of the workflow has been compiled |
| ResultFormat.EscapeField | src/c_api.cpp:112-121 | the loop writes the percent-encoding of the text |
| ResultFormat.FormatRecord | src/c_api.cpp:133-139 | a record is its fields joined by ':' |
| ResultFormat.FormatResults | src/c_api.cpp:125-152 | the string is the records joined by ';', cut at a NUL by the final copy |
| ResultFormat.ParseResults | examples/python_example/fastrules_example.py:339-365 | the reader splits at ';' then ':', and skips what is malformed |
| ResultFormat.DecimalReadsBack | examples/python_example/fastrules_example.py:352-352 | the reader's int gives back every id the printer writes |
| ResultFormat.RoundTrip | src/c_api.cpp:125-152 | reading the string back gives exactly one entry per result, in order, with id, escaped name, flag and optional escaped error, when names are free of NUL |
| ResultFormat.DecodableIffCodeFree | src/c_api.cpp:112-121 | decoding recovers a text exactly if it contains neither "%3A" nor "%3B" |
| ResultFormat.SameEncodingIff | src/c_api.cpp:112-121 | two texts are written alike exactly if decoding their codes makes them equal |
| ResultFormat.EscapeInjective | src/c_api.cpp:112-121 | on texts without the codes the encoding is injective |
| ResultFormat.Codes | src/c_api.cpp:116-117 | the two codes |
| ResultFormat.WireExample | src/c_api.cpp:123-140 | the string for a success and a failure, spelled out |
| ResultFormat.EscapeCollides | src/c_api.cpp:112-121 | without that restriction it is not |
| ResultFormat.WireInjective | src/c_api.cpp:125-152 | equal strings mean equal results, field by field, on texts without NUL and without the codes |
| Text.DecimalParse | src/c_api.cpp:133-133 | an id written in decimal reads back as itself |
| Text.SplitJoin | examples/python_example/fastrules_example.py:345-348 | splitting undoes joining when no part contains the separator |

## Left out

- Lua itself, the bindings, metatables and the stack: evaluation, loading and memory use are oracles.
- JSON, XML and database extensions and the disk cache of compiled code: file formats of third-party libraries.
- Expression, input and parameter validators and the sandbox denylists: fixed tables; the model only asks "does it pass".
- Performance counters, logging, timing, trace contents, version history, memory pools: no effect on results.
- `executeAdaptive`, `executeAsync`, `TimeoutExecutor` and coroutine tasks: real time and object lifetime.
- Weak memory orderings: every atomic access is one sequentially consistent step.
- Fairness: no theorem says that a thread is eventually scheduled; the results say what can always be completed, and in how many steps of its own.
- TreeOracle.TreesAnswer: that a rule's own verdict is the same in every context is assumed, since it is what "sequential and parallel agree" is about; whether it is served from its cache is a parameter.
- Growing the lock-free deque while a thief runs: the header declares it unsafe; the step system covers runs in which `push` never has to grow, and `RingDeque` covers growth for calls that do not overlap.
- WorkStealingDeque.HistoryIsLegal: a thief's "empty" and "lost the race" answers are not events of the history, since they may be given while an unsettled pop still holds the last item; CallsEndProperly and LostRaceIsExcused say when they are given.
- Index wrap-around of the deque after 2^64 operations, and `& mask`, which is written as the remainder by a power-of-two capacity.
- ThreadPool.ShutdownDrains: makes no promise for outside callers that push after the destructor began, because the code keeps none (see the counterexample).
- Duplicate rule ids, duplicate names, empty dependency names, and NUL in dependency names (compared as a C string in one place only): excluded by precondition. Ids of 0 may repeat in `Workflow::validate`; the model takes all ids as unique.
- `Rule::validate`: its own edge building misses names listed later; the workflow-level check is the complete one and is the one modelled.
- Reassigning `rules` after validation, `releaseRef` on references that rules own, and moved-from engines.
- Collisions of the source fingerprint: the record keeps the source text itself.
- The engine's map from references to backend ids and the backend's chunk table: one registry here.
- ParallelExecution.NoTaskStarves: the pool is a set of engines, operated on atomically, and one run uses it alone; the stack order and its swaps are in EnginePool.
- Context entries in the parallel model keep the success flag only, since that is all a dependency check reads.
- ParallelCompilation.EachRuleCompiledOnce: counts what the claim loop hands out; that compiling a parent also compiles its children into the same engine is modelled in CompiledRefs only. The shortcut to sequential compilation for small workflows is not modelled.
- ResultCache.BuildCacheKey: how floating-point and compound values are printed is foreign, so such a value carries its printed text; integers of all widths are one case.
- RateLimiter.AdmissionsAreSpaced: one fixed configuration, and a window count that fits a 32-bit int.
- RateLimiter `remove`, `reset` and the throwing wrapper: easy members.
- Removing the sandbox, the instruction hook and restoring the original allocator.
- ResultFormat.ParseResults: Python's `int` also accepts digits of other scripts, which the printer never writes. A failed `malloc` in the printer is not modelled.
- `StreamingResult` pause and resume: they only delay the iterator.
