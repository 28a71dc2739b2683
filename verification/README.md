# SIM-SM in Dafny

SIM-SM is a cycle-level simulator of a CUDA-like GPU. A GPU holds streaming multiprocessors (SMs) that share an L2 cache
and global memory; an SM holds resident blocks of warps, a warp scheduler, an L1 cache and banked shared memory; a warp
runs up to 32 threads with one program counter, one active mask and a stack of masks for divergent control flow. This
project models that machine, one opcode, one tick, one cache access and one dispatch decision at a time, and proves what
it promises over whole runs.

## How the project is laid out

Every component exists twice, and the two are proved equal.

* **Specification.** `Isa`, `WarpModel`, `ExecutorModel`, `SchedulingModel`, `CacheModel`, `MemoryModel`, `SmModel` and
  `GpuModel` give the machine as functions on values: one function per operation, with the branches, edge cases, constants
  and throws of the code. `Result` stands for the exceptions.
* **Imperative code.** `Warps`, `Policies`, `Caches`, `Memories`, `MemorySystems`, `Schedulers`, `InstructionExecutor`,
  `StreamingMultiprocessors`, `Gpus`, `Kernels`, `GridBuilder` and `ReductionDriver` are the classes and loops: fields
  updated in place, arrays, lists erased while iterated, memories and caches shared between SMs. Every method's contract
  ties its result and its new state, through an abstraction function `Abs`, to the specification function of the same name.

The theorems are about the specification, and hold for the objects through those contracts.

* **SIMT divergence.** `SimtStack` and `StackRuns` (mask and reconvergence invariants of every program), `Nesting` (a check
  of the kernel text), `Scalar` (independent threads), `Refinement` and `SmRefinement` (a warp, an SM, is its threads, with
  stuttering where a SYNC only swaps paths), `Semantics` (every opcode in register and word values), `Structured` and
  `Reconvergence` (regions restore the mask and the stack).
* **Run-time protocol.** `Barriers`, `GpuRuns`, `Deadlock` and `Departures` (lockstep, and exactly when a block is stranded
  or a path left behind), `Progress`, `BlockProgress` and `Termination` (deadlock freedom of every block and a decreasing
  measure), `Residency`, `Dispatch`, `Placement` and `GpuTermination` (accounting, exact dispatch, the whole GPU finishes),
  `SchedulerTheory`, `SchedulerChoices`, `TwoLevelIdling`, `TwoLevelProgress` and `TwoLevelCapacity` (whom the policies
  choose, and exactly when the two-level one completes), `Stalls` and `InstructionTiming` (latency over ticks).
* **Memory.** `CacheTheory`, `CacheRuns`, `CacheStats`, `CacheSoundness` and `Hierarchy` (recency and insertion lists,
  inclusion, conservatism, conservation), `LineTiming` and `PathTiming` (which lines are dirty, and what an access costs),
  `Banks`, `WarpMemory` and `Occupancy`.
* **One program on that machine.** `ReductionMath`, `ReductionThreads`, `Reduction`, `ReductionRaces`, `ReductionRuns`,
  `ReductionSafety`, `BlockViews`, `ReductionBlocks`, `ReductionGrids` and `ReductionJobs` take the generated block-reduction
  kernel from one step of one thread to total correctness of the whole grid on the whole GPU; `ReductionDriver.RunReduction`
  is the host, and `Halving` says for which block sizes the rounds add up. All of it holds for every block size.

Program counters and branch targets wrap at 2^64 as `size_t` does; addresses are natural numbers below 2^64. A stack
entry's kind, a warp's counts of barrier arrivals and releases, and the placement of blocks are marks the machine never
reads.

## Two classes of kernels

*Well nested* (`Nesting.WellNested`) is a check on the text in one pass: every SSY announces a later SYNC, regions nest,
every SYNC is the one announced by the innermost open region, every branch target lies in the regions open at the branch,
the instruction after a branch exists and is no SYNC (a deferred path that starts there would be taken for the token), and
nothing is open at the end. The refinement theorems need no more. *Well structured* (`Structured.WellStructured`) adds
that branches go forward, stand inside regions, and that no BARRIER stands inside a region; this is what the kernel
generators emit, and the liveness theorems need it. The mask, stack, lockstep, accounting, dispatch and conservation
theorems hold for every kernel.

## Where the code and what is said about it part

* A comment at src/architecture/sm.cpp:198-200 calls silent deadlocks unreachable. `Counterexamples.SilentDeadlock` is one:
  the completion of a warp never looks at the warps of its block that already wait. `Deadlock.StrandsIff` is the exact
  condition, and no issue of a structured kernel ever meets it (`BlockProgress.NeverStrands`, `BlockProgress.RunsAwake`).
* SYNC knows a token only by comparing addresses. `Reconvergence.EmptyGuardRestoresIffUniform` says exactly when a guarded
  block without a body still works, and `Counterexamples` shows what happens otherwise. The inner SSY at
  tests/simt_test.cpp:90 targets 16, not the SYNC at 12, and lies outside the well-nested kernels for that reason
  (`Counterexamples.NestedTestRejected`).
* A warp fetched past the end completes without looking at its stack. `Departures.CompletesWithPathsLeft` is a run from a
  fresh warp that loses a path so; `Departures.CompletesLeavingIff` and `Departures.BroughtPastIff` are the exact
  conditions, and no well-nested kernel meets them (`Departures.NestedLeavesNothing`).
* The two-level policy can idle for ever in front of a ready warp. `TwoLevelIdling` says exactly when it idles;
  `TwoLevelProgress.TwoLevelCompletesIff` says exactly which runs of a structured kernel complete, and
  `TwoLevelCapacity.CapacityIff` that all do, but for data errors, exactly when the active set has room for all warps:
  with any smaller one a kernel of one BARRIER never finishes. `Termination` and `GpuTermination` leave the policy out; the
  safety theorems and `ReductionGrids.GridReducesIfDone` do not.
* Every reduction block addresses its cells by its number in the grid although every SM has a shared memory of its own, so
  blocks are admitted by the shared memory of one block and may then address beyond it:
  `ReductionDriver.AdmittedButOutOfRange` is such a run, and `ReductionJobs.ReductionSucceedsIff` gives the exact amount of
  shared memory the benchmark needs.
* The generator accepts every block size, but halving an odd stride leaves a cell out of the sum, and the benchmark's check
  then fails: `ReductionDriver.SixFallShort` is such a run, and `ReductionDriver.RunBenchmark` gives the exact condition.
  For full blocks it is that the block size is a power of two (`Halving.AllCountIff`); a single partial block of a few
  threads can still be added up (`ReductionJobs.AllAddUpIff`).

## Model

| member | source | states |
|---|---|---|
| SmRefinement.TicksRefine | src/execution/instruction_executor.cpp:210-276 | For every kernel whose SSY regions nest, every scheduler, cache and run length: n ticks of an SM are, from start to end, a run of its lanes as independent scalar threads (SSY, SYNC and BARRIER are no-ops for a thread) that share one flat memory; program counters, registers, predicates and memory all agree afterwards. |
| SmRefinement.TickRefines | src/architecture/sm.cpp:141-263 | One tick is the scalar steps of the selected warp's acting lanes, each exactly once in lane order, or no step at all. |
| Refinement.IssueRefines | src/execution/instruction_executor.cpp:210-276 | One issued instruction steps every lane it acts on exactly once and no other lane; a SYNC that only switches to a deferred path steps nobody and changes no lane's program counter. |
| Refinement.ExecuteIsFold | src/execution/instruction_executor.cpp:28-209 | Whatever the caches hold, an instruction changes threads and memory exactly as its acting lanes would one after another in lane order: gathering all addresses first, timing the lines once and scattering afterwards is not observable. |
| Refinement.ExecutePcs | src/execution/instruction_executor.cpp:210-276 | Every acting lane stands at the warp's PC and moves as a scalar thread would; every other lane keeps its own PC, which is the target of the topmost stack entry that holds it, or the end. |
| Refinement.FinishPcs | src/architecture/sm.cpp:233-256 | The end-of-kernel pop moves no lane. |
| SmRefinement.CompletedLanesRanAlone | src/execution/instruction_executor.cpp:210-276 | In a kernel without stores, when a warp completes every lane has reached the end of the kernel with the registers and predicate it would have had if run alone from the same start. |
| SmRefinement.SoloProjection | src/execution/instruction_executor.cpp:28-111 | Any interleaving of the scalar threads of a store-free kernel, seen from one thread, is that thread run alone for as many steps as it took. |
| ScalarModel.RunFold | src/execution/instruction_executor.cpp:19-25 | Lanes standing at one instruction, stepped one by one as scalar threads, are one fold of that instruction over the mask; they end where each lane's own branch decision sends it. |
| Semantics.ArithmeticMeans | src/execution/instruction_executor.cpp:28-209 | ADD, SUB, MUL, MOV and CMP on a whole warp, in register values: a sum less one term is the other, a difference plus what was taken away is the first operand, a product is the one factor added as often as the other says, a move is the register or the immediate, a comparison sets the predicate exactly on equality; every other register, predicate and lane stays; it throws exactly when an active lane lacks a register it names; one cycle. |
| Semantics.SubSubtracts | src/execution/instruction_executor.cpp:40-51 | After SUB every active lane's destination plus its old second operand is its old first operand, and no other register changes. |
| Semantics.MulMultiplies | src/execution/instruction_executor.cpp:52-63 | After MUL nothing times anything is nothing, and one more in the second factor adds the first factor to the result. |
| Semantics.LoadMeans | src/execution/instruction_executor.cpp:79-111 | After LOAD every active lane's destination holds the word at the 64-bit sum of its base register and the immediate; nothing else changes. |
| Semantics.StoreMeans | src/execution/instruction_executor.cpp:112-154 | After STORE every word holds the value of the last active lane that addresses it, or what it held before. |
| Semantics.AtomicMeans | src/execution/instruction_executor.cpp:155-197 | After ATOMIC_ADD every word has gained the sum of the values of the active lanes that address it. |
| Semantics.BranchMeans | src/execution/instruction_executor.cpp:210-243 | BRANCH by its active lanes' predicates: none set, it falls through; all set, it goes to the 64-bit sum of PC and immediate; some set, it goes there with those lanes and the others wait on top of the stack at the next instruction. |
| Nesting.SyncRecognises | src/execution/instruction_executor.cpp:257-276 | In a nested kernel SYNC never finds an empty stack, and comparing the popped target with the warp's PC tells a token from a deferred path correctly. |
| Nesting.IssueInStep | src/execution/instruction_executor.cpp:210-276 | Every instruction keeps the stack in step with the regions open at the PC: as many tokens, in order, as open SSY regions, and every deferred target inside the regions of the tokens beneath it. |
| Counterexamples.WrongSyncThrows | src/execution/instruction_executor.cpp:257-276 | Concrete input outside that class: a SYNC that its SSY did not announce takes the token for a deferred path, and a later SYNC throws on the empty stack although no lane diverged. |
| Counterexamples.EmptyBodyThrows | src/execution/instruction_executor.cpp:260-268 | Concrete input outside that class: a divergent BRANCH directly before its SYNC pushes a deferred path that is taken for the token; the run ends in an empty-stack throw. |
| Counterexamples.EmptyBodyRejected | src/execution/instruction_executor.cpp:226-243 | The kernel with the empty body is not in the checked class. |
| Counterexamples.NestedTestRejected | tests/simt_test.cpp:84-111 | The kernel of the nested-divergence test, whose inner SSY targets the outer SYNC, is not in the checked class. |
| Reconvergence.EmptyGuardRestoresIffUniform | src/execution/instruction_executor.cpp:226-276 | The exact condition for a guarded block without a body, a caller of the SSY can check it: four instructions after the SSY mask and stack are as they were if and only if the two compared registers compare the same way on all active lanes. |
| Departures.CompletesLeavingIff | src/architecture/sm.cpp:206-257 | For any kernel, an issue leaves its warp completed with paths still on its stack if and only if the warp was fetched past the end with a non-empty stack. |
| Departures.BroughtPastIff | src/architecture/sm.cpp:206-257 | And an instruction brings a warp there if and only if its own path, and the path it would resume, both lie past the end while a further path waits; told from the warp's PC, opcode, predicates and stacked targets before the instruction. |
| Departures.ExecuteLands | src/execution/instruction_executor.cpp:210-290 | Those predictions are right: where every opcode leaves the PC and the targets on the stack, and that only BARRIER reports an arrival. |
| Departures.NestedLeavesNothing | src/architecture/sm.cpp:206-257 | No warp of a well-nested kernel is ever brought past the end with paths left, nor completes with any, in any run. |
| Departures.CompletesWithPathsLeft | src/architecture/sm.cpp:206-257 | Concrete input: four instructions and a fresh warp of three lanes; after four ticks the SM is completed without an error, lane 0 is still deferred on the stack and has executed nothing of its path. |
| Departures.AloneLaneWrites | src/architecture/sm.cpp:206-257 | The same lane run alone as a scalar thread writes its register. |
| SimtStack.ExecuteInvariants | src/execution/instruction_executor.cpp:210-276 | For every instruction of every program: masks stay non-empty sets of the warp's lanes, everything above a token lies inside its mask, everything above a deferred path is disjoint from its mask, and the reconvergence PC is the target of the innermost token or the sentinel, at every level of the stack. |
| SimtStack.BranchInvariants | src/execution/instruction_executor.cpp:210-243 | A divergent BRANCH splits the active mask into two disjoint non-empty parts and keeps the mask order and the reconvergence chain. |
| SimtStack.SetSyncInvariants | src/execution/instruction_executor.cpp:244-256 | SSY stores the outer reconvergence PC in its token and makes its own target the innermost. |
| SimtStack.FinishInvariants | src/architecture/sm.cpp:233-256 | The end-of-kernel pop keeps both invariants. |
| SimtStack.DeferredBound | src/execution/instruction_executor.cpp:226-243 | A warp of n lanes never has more than n - 1 deferred paths stacked. |
| SimtStack.BarrierConverged | src/execution/instruction_executor.cpp:277-288 | BARRIER succeeds if and only if every lane is active, and then no deferred path is stacked. |
| StackRuns.RunsStacked | src/execution/instruction_executor.cpp:210-289 | Both invariants and the bound on deferred paths in every state an SM reaches, for every kernel, well formed or not, and every scheduler. |
| Reconvergence.RegionReconverges | src/runtime/benchmarks.cpp:727-749 | Structured reconvergence for arbitrarily nested regions: from an SSY of a warp in step with the kernel, whatever its active mask and whatever outer regions and deferred paths its stack holds, some number of steps later the warp stands just past the region's SYNC with mask, stack and reconvergence PC restored, only lanes of that mask having run, as scalar threads, in between; what can go wrong is a data error only. |
| Structured.BarrierConverges | src/execution/instruction_executor.cpp:277-288 | In a structured kernel BARRIER never finds its warp divergent and finds the stack empty. |
| Structured.ExecuteKeeps | src/execution/instruction_executor.cpp:277-288 | All paths of a warp of a structured kernel, running or deferred, stand behind the same number of BARRIERs, as many as the warp has arrived at; only a BARRIER advances it. |
| Structured.RegionHasNoBarrier | src/runtime/benchmarks.cpp:727-749 | In a structured kernel no BARRIER lies between an SSY and its SYNC, on any path. |
| Barriers.TickLockstep | src/architecture/sm.cpp:265-297 | Barrier lockstep, one tick of any program under any scheduler: all warps of a block have been released from the same number of barriers, and a warp has arrived at one more exactly while it waits. |
| Barriers.NoWarpRunsAhead | src/architecture/sm.cpp:265-297 | What lockstep means: arrivals within a block differ by at most one, and no warp runs past its n-th BARRIER before every warp of its block has arrived at its n-th. |
| Barriers.ArrivalLockstep | src/architecture/sm.cpp:265-297 | The arrival and, for the last arriver, the release of the whole block keep lockstep. |
| GpuRuns.RunsOrderly | src/architecture/gpu.cpp:52-89 | Lockstep of every resident block, laminar masks and chained reconvergence PCs on a whole GPU after any number of iterations, for every kernel, through admission and release of blocks. |
| GpuRuns.LaunchOrderly | src/architecture/gpu.cpp:27-50 | Launching a grid of unstarted warps establishes it. |
| GpuRuns.FreshRunsOrderly | src/architecture/gpu.cpp:27-89 | So a grid of new warps, launched on any GPU and run for any number of iterations of any kernel, is in that order throughout. |
| Barriers.StuckForever | src/architecture/sm.cpp:197-204 | An SM all of whose warps wait or have completed, some waiting, ticks for ever without change, error or completion. |
| Deadlock.StrandsIff | src/architecture/sm.cpp:206-249 | The exact condition under which an issue strands a block at a barrier, for any kernel, told from the state before it: every other unfinished warp of the block waits at a barrier, at least one does, and the issued warp is past the end or its opcode, predicates and topmost entry take it there with an empty stack; no error is reported. Barrier arrivals themselves never strand a block. |
| Deadlock.StrandedForever | src/architecture/sm.cpp:197-204 | A stranded block stays exactly as it is for ever, whatever the other blocks of the SM do, and keeps the SM from completing. |
| Counterexamples.SilentDeadlock | src/architecture/sm.cpp:198-208 | Two warps, one of which branches around the BARRIER: after three ticks the SM is stuck without any error, contrary to the comment in the code. |
| Progress.NeverDeadlocked | src/architecture/sm.cpp:265-297 | Deadlock freedom, block by block: while a warp of a structured kernel is unfinished, some warp of its own block is ready or counting down a stall. |
| BlockProgress.RunsAwake | src/architecture/sm.cpp:141-297 | In every state an SM reaches with a structured kernel every unfinished warp has such a mate, and no block is stranded at a barrier. |
| BlockProgress.GpuRunsAwake | src/architecture/gpu.cpp:52-89 | The same on every SM of a GPU after any number of iterations of a launched grid. |
| BlockProgress.NeverStrands | src/architecture/sm.cpp:206-249 | No issue of a structured kernel meets the condition under which a block is stranded. |
| Progress.TickLively | src/architecture/sm.cpp:141-263 | Every tick of a structured kernel keeps that invariant and can throw only over the program's data (register index, address, mixed spaces, cache dimensions): never over an empty SIMT stack, a divergent barrier or a malformed barrier. |
| Progress.ArrivalSucceeds | src/architecture/sm.cpp:265-297 | A barrier arrival in a structured kernel never reports a malformed barrier and leaves no block with nobody missing. |
| Termination.Terminates | src/architecture/sm.cpp:141-263 | Under round-robin, greedy, oldest-first, GTO, or priority with priorities above the minimum, ticking an SM that runs a structured kernel reaches completion whatever other SMs do to the memory in between, unless a tick throws over data. |
| Termination.TickDecreases | src/architecture/sm.cpp:141-263 | Every tick of an unfinished SM lowers the measure (remaining lane instructions, stacked entries, unfinished warps, remaining stall cycles) lexicographically. |
| Termination.IssueWork | src/execution/instruction_executor.cpp:210-276 | Every issue shortens some lane's remaining path, or changes none and pops the stack. |
| Termination.SelectsSomeone | src/scheduling/gto_scheduler.cpp:5-44 | The five work-conserving policies select a warp whenever one is ready. |
| Stalls.LatencyHolds | src/architecture/sm.cpp:148-157 | Latency over ticks, whatever other warps, SMs and the scheduler do: a warp issued with latency L > 1 that goes on in the kernel is stalled after each of the following L - 2 ticks; it is offered as ready in tick L - 1 and not before, ready since that tick's cycle. |
| Stalls.NoLatency | src/architecture/sm.cpp:252-256 | A warp issued with latency one is offered in the next tick, ready since it was before. |
| Stalls.BarrierTiming | src/architecture/sm.cpp:265-297 | An arrival while another warp of the block does not wait changes the arriver only; the last arrival makes it and every waiting warp of its block ready since that cycle, and changes nobody else. |
| InstructionTiming.ExecuteCosts | src/execution/instruction_executor.cpp:79-197 | How long every instruction takes: one cycle, but for a memory instruction with an active lane, which takes what its requests cost in memory and, if it writes, the collision penalty. |
| InstructionTiming.CollisionsMean | src/execution/instruction_executor.cpp:129-149 | The collision penalty is one less than the largest number of active lanes that address one word. |
| InstructionTiming.ColdLoadWaits | src/architecture/sm.cpp:206-256 | A warp that issues a LOAD of one line of global memory on new LRU caches and goes on in the kernel is stalled until, and offered as ready in, exactly the tick that comes after its own by the latencies of L1, L2 and global memory together, less one: the 124th under latencies of 5, 20 and 100. |
| Dispatch.RunDispatchesExactly | src/architecture/gpu.cpp:52-89 | The account of a run, for any kernel: from a launched grid of non-empty, uniquely numbered blocks that each fit an empty SM no impossible block is ever reported, every SM's allocated amounts stay right, and when the run returns nothing is pending, and every SM holds no warps, no blocks and no resources. |
| Placement.GridDispatchedExactly | src/architecture/gpu.cpp:27-89 | Exact dispatch, from launch to return, for any kernel and scheduler: after any number of iterations every block of the grid is still pending with nothing of it on any SM, or resident on exactly one SM with exactly its warps (ids, priorities, threads' blocks) and nothing of it elsewhere, or gone after all its warps had completed there; when the run returns every block is in the last case. |
| Placement.GridFinishes | src/architecture/gpu.cpp:27-89 | Total correctness of dispatch for a structured kernel: the loop ends, and for every block of the grid some earlier state has exactly its warps, by id, priority and threads, on one SM, all of them completed, unless a tick throws over data. |
| Placement.IterateHouses | src/architecture/gpu.cpp:52-89 | One iteration: a resident block stays on its SM with its warps unless all of them had completed, and then it is gone; a block that is gone stays away; a block that is newly dispatched is resident with all its warps on one SM only. |
| Placement.AdmitExact | src/architecture/gpu.cpp:33-48 | Admission adds exactly the warps and exactly the footprints of the blocks it takes from the pending list, in grid order, and stops at the first that does not fit. |
| Placement.ReleaseExact | src/architecture/sm.cpp:109-139 | Release removes exactly the blocks all of whose warps have completed, with all their warps, and leaves every other block all its warps, completed ones included. |
| Dispatch.LaunchFacts | src/architecture/gpu.cpp:27-50 | Launching such a grid succeeds and establishes the accounting invariant: what every SM has allocated, which blocks it has resident, and how far the grid is dispatched. |
| Dispatch.RefillFacts | src/architecture/gpu.cpp:56-72 | Phase 1 never reports an impossible block; an SM that is completed afterwards is empty, and nothing is pending any more. |
| Dispatch.NotEmptyWhenFull | src/architecture/gpu.cpp:64-69 | A block that an SM refuses finds it occupied. |
| Residency.TickAccounted | src/architecture/sm.cpp:141-263 | A tick keeps the account and the resident blocks, and every warp in its place in the list with its id, priority, number of threads and block. |
| Residency.AllocateAccounted | src/architecture/sm.cpp:64-107 | Admission keeps every allocated amount equal to the sum over the resident blocks and within its limit. |
| Residency.ReleaseAccounted | src/architecture/sm.cpp:109-139 | Release keeps the account, leaves no completed block resident, takes warps away only if they have completed, and changes neither clock nor scheduler. |
| Residency.AllReturned | src/architecture/sm.cpp:109-139 | Once all warps have completed, release leaves no warp, no block and no allocated resource. |
| GpuTermination.GpuFinishes | src/architecture/gpu.cpp:52-89 | The whole run of a structured kernel: the loop ends, with nothing pending and every resource free, unless a tick throws over data. |
| GpuTermination.IterateLive | src/architecture/gpu.cpp:52-89 | An iteration that is not the last admits a block or lowers the measure of the whole GPU. |
| GpuTermination.LaunchLive | src/architecture/gpu.cpp:27-50 | A launched grid of fresh warps on SMs with work-conserving schedulers is such a run's start. |
| SchedulerTheory.RoundRobinBounded | src/scheduling/round_robin_scheduler.cpp:5-20 | Bounded waiting: over a list of n warps one that is ready at every call is selected within n calls. |
| SchedulerTheory.PriorityBounded | src/scheduling/priority_scheduler.cpp:6-32 | The same bound for a warp that is always ready, above the minimum priority and never outranked by a ready warp. |
| SchedulerTheory.PriorityPicks | src/scheduling/priority_scheduler.cpp:6-32 | The warp picked is no farther round the ring than any ready warp of maximal priority, and the next scan starts just behind it. |
| SchedulerChoices.OldestFirstChooses | src/scheduling/oldest_first_scheduler.cpp:5-25 | The warp chosen is ready and no ready warp is older in (ready cycle, id); nobody is chosen only if nobody is ready. |
| SchedulerChoices.GtoChooses | src/scheduling/gto_scheduler.cpp:5-44 | While a warp with the id issued last is ready one with that id is chosen; otherwise the oldest ready warp; the id chosen is what is remembered. |
| SchedulerChoices.GtoStays | src/scheduling/gto_scheduler.cpp:5-44 | Over any calls on warps of distinct ids: a warp greedy-then-oldest has chosen is chosen again at every call while it stays ready. |
| SchedulerChoices.GreedyChooses | src/scheduling/greedy_scheduler.cpp:5-12 | Greedy chooses the first ready warp of the list. |
| SchedulerChoices.RoundRobinChooses | src/scheduling/round_robin_scheduler.cpp:5-20 | Round-robin chooses the ready warp nearest behind its index, and its next scan starts just behind that one. |
| SchedulerChoices.PriorityIdles | src/scheduling/priority_scheduler.cpp:6-32 | A ready warp of the lowest priority is never selected. |
| SchedulerChoices.NobodyReady | src/scheduling/two_level_scheduler.cpp:48-67 | When nobody is ready nobody is chosen and no index moves. |
| SchedulerChoices.FirstOldest | src/scheduling/scheduler_factory.cpp:12-28 | The schedulers built under the names of the oldest-first and the greedy-then-oldest policy choose the oldest ready warp first. |
| SchedulerChoices.FirstInList | src/scheduling/scheduler_factory.cpp:12-28 | Those built under the names of the round-robin and the greedy policy choose the first ready warp of the list first. |
| SchedulerChoices.FirstOfPriority | src/scheduling/scheduler_factory.cpp:12-28 | The one built under the name of the priority policy chooses the first ready warp of the highest priority first. |
| SchedulerTheory.UpdateActiveFacts | src/scheduling/two_level_scheduler.cpp:6-46 | With unique ids, updating the active set keeps it duplicate-free and within its size, with only present, uncompleted members; a member stays until its warp completes or leaves; new members are older in (ready cycle, id) than every ready warp left outside; and a set with room leaves no ready warp outside. |
| SchedulerTheory.TwoLevelSelects | src/scheduling/two_level_scheduler.cpp:48-67 | One call keeps the active set good, selects only members, and selects one if and only if some member is ready. |
| SchedulerTheory.TwoLevelOverCalls | src/scheduling/two_level_scheduler.cpp:6-67 | Over any sequence of calls on any lists of warps: at every call the set is duplicate-free, within its size, of present, uncompleted members; members leave only by completing or disappearing; new members are the oldest ready ones; and only a ready member is selected, one whenever there is one. |
| SchedulerChoices.TwoLevelBounded | src/scheduling/two_level_scheduler.cpp:48-67 | Bounded waiting inside the active set: over calls in which the set stays the same n members, a member that has a ready warp at every call is selected within n calls. |
| SchedulerChoices.TwoLevelRotates | src/scheduling/two_level_scheduler.cpp:48-67 | While all members have ready warps they take turns in the order of the set, beginning at the index. |
| SchedulerChoices.ActiveOrder | src/scheduling/two_level_scheduler.cpp:6-46 | Updating the set keeps the staying members first and in their order, and appends the new ones, older before younger. |
| SchedulerChoices.SetStays | src/scheduling/two_level_scheduler.cpp:6-46 | The set stays as it is while all members stay and it is full or no ready warp is outside. |
| TwoLevelIdling.IdlesIff | src/scheduling/two_level_scheduler.cpp:6-67 | Exactly when the two-level policy idles, told from the set before the call: no warp is ready, or the set is full, all its members are present and uncompleted, and no ready warp is a member. |
| TwoLevelIdling.CloggedForever | src/scheduling/two_level_scheduler.cpp:6-67 | An SM whose active set is full of warps that wait at a barrier never issues again although a warp outside is ready. |
| TwoLevelCapacity.CapacityIff | src/scheduling/two_level_scheduler.cpp:6-67 | The exact condition on the configuration: every run of every structured kernel on n warps of distinct ids under the two-level policy completes or throws over data if and only if the active set has room for all n. |
| TwoLevelCapacity.MeetingNeverHappens | src/scheduling/two_level_scheduler.cpp:6-46 | For every n and every smaller active set: the well-formed kernel of one BARRIER on n new warps of one block never completes, after any number of ticks, and never throws. |
| TwoLevelProgress.TwoLevelCompletesIff | src/scheduling/two_level_scheduler.cpp:6-67 | The exact condition for completion under the two-level policy: from any state of an SM that runs a structured kernel with distinct warp ids, ticking reaches completion if and only if the active set never fills up with waiting warps while another is ready, and no tick throws over data, whatever other SMs do to the memory in between. |
| TwoLevelProgress.TickOrClog | src/scheduling/two_level_scheduler.cpp:6-67 | Every tick of an unfinished SM under the two-level policy lowers the termination measure or leaves the set so filled. |
| TwoLevelProgress.WideCompletes | src/scheduling/two_level_scheduler.cpp:6-67 | With an active set as large as the list of warps a structured kernel completes if and only if no tick throws over data. |
| CacheRuns.LruInclusion | src/memory/lru_policy.cpp:14-36 | Inclusion: with equal sets and lines and associativities A <= B, on any trace of accesses and writes every hit in the A-way cache is a hit in the B-way cache. |
| CacheRuns.LruHitIff | src/memory/lru_policy.cpp:14-36 | Hit or miss by reuse distance: from an empty cache a request hits if and only if its line was requested before and fewer than A other lines of its set were requested since. |
| CacheTheory.LruStep | src/memory/lru_policy.cpp:14-36 | One access to an LRU set hits exactly the A most recently used distinct tags; it evicts if and only if it misses a full set; the valid ways remain a prefix of the recency list. |
| CacheRuns.LruConservative | src/memory/lru_policy.cpp:14-36 | From any reachable LRU state, over a stretch that touches at most A distinct lines of a set, each line misses at most once, so at most A misses. |
| CacheTheory.FifoStep | src/memory/fifo_policy.cpp:9-37 | One access to a FIFO set hits exactly the A latest inserted tags; the queue holds exactly the valid ways in insertion order and the flags agree with it. |
| CacheRuns.FifoConservative | src/memory/fifo_policy.cpp:9-37 | The same conservative bound for FIFO, from any reachable state. |
| CacheStats.RunConserves | src/memory/cache.cpp:34-85 | Under every policy, any trace on a constructed cache runs without a throw; accesses = hits + misses = length of the trace, misses = evictions + valid lines, no two valid ways of a set share a tag, only valid ways are dirty, and dirty evictions + dirty lines <= writes. |
| CacheStats.SetConserves | src/memory/cache.cpp:34-85 | How one access changes the valid and the dirty lines of its set. |
| LineTiming.DirtyIffWritten | src/memory/cache.cpp:46-84 | Exactly which lines are dirty, from a new cache, under every policy and any trace: a valid line is dirty if and only if it has been written since it was last brought in. |
| LineTiming.DirtyEvictionIff | src/memory/cache.cpp:62-84 | An access evicts a dirty line if and only if it drops one that has been written since it was brought in. |
| LineTiming.SetAndTagNameLine | src/memory/cache.cpp:34-45 | Two addresses have the same set and tag if and only if they lie in the same line. |
| LineTiming.NextLineNextSet | src/memory/cache.cpp:34-45 | Consecutive lines lie in consecutive sets, round the cache. |
| LineTiming.RandomReplaces | src/memory/random_policy.cpp:8-26 | A miss under the random policy fills the first way with room, or without any replaces the way its next draw names, using that draw up; no other way changes. |
| CacheSoundness.SoundAccess | src/memory/cache.cpp:34-85 | A cache in a state its policy can reach serves every access without a throw and stays in such a state. |
| Hierarchy.RunConservesHierarchy | src/memory/memory_system.cpp:8-61 | In every run of every kernel on a whole GPU, with the writes each SM made to its own L1 counted along the run: for every L1 and the L2 accesses = hits + misses, misses = evictions + valid lines and dirty evictions + dirty lines <= writes to that cache; L2 accesses equal the sum of all SMs' L1 misses; and the L2 has never been written. |
| Hierarchy.FreshGpuConserved | src/architecture/gpu.cpp:9-14 | A GPU whose caches are new satisfies these laws with no writes made. |
| Hierarchy.NoDirtyL2 | src/memory/memory_system.cpp:8-61 | Consequently no L2 line is ever dirty. |
| Hierarchy.DirtyWithinWrites | src/memory/memory_system.cpp:36-61 | And an L1's dirty evictions and dirty lines together are no more than the writes its SM has made to it. |
| PathTiming.LatencyByHistory | src/memory/memory_system.cpp:8-61 | What an access costs, told by the request history alone, through two new LRU caches of any shapes: a line the L1 still has costs the L1's latency; one it has lost but the L2 still has, the L2's too; any other, global memory's too; a miss that drops a line written since it was brought in adds the writeback's and counts one dirty eviction. |
| PathTiming.ColdCosts | src/memory/memory_system.cpp:8-61 | A line never requested before costs L1, L2 and global memory together. |
| PathTiming.WarmCosts | src/memory/memory_system.cpp:8-61 | A line just requested costs the L1's latency only. |
| PathTiming.AccessCosts | src/memory/memory_system.cpp:8-61 | For any caches and policies: the latency of an access is that of the levels whose miss counts it raises, and of a writeback if it raises the L1's dirty evictions. |
| PathTiming.CostsAddUp | src/memory/memory_system.cpp:8-61 | Over any trace, caches and policies the latencies add up to the accesses, misses and dirty evictions weighted by the latencies of their levels. |
| PathTiming.WarpCosts | src/memory/memory_system.cpp:113-138 | A warp's access to global memory takes as long as the slowest of its lines, served one after another, and one cycle for each further line; transactions and dirty evictions are counted over them. |
| PathTiming.SharedCosts | src/memory/memory_system.cpp:85-112 | A warp's access to shared memory takes the shared latency and one cycle for each bank conflict among the addresses less the base of shared memory, and touches no cache. |
| Banks.NoShorterSchedule | include/memory/shared_memory.hpp:34-52 | No schedule of rounds that use each bank at most once and serve all distinct words is shorter than the penalty plus one. |
| Banks.ShortestSchedule | include/memory/shared_memory.hpp:34-52 | A schedule of exactly the penalty plus one rounds exists. |
| Banks.SameWordIff | include/memory/shared_memory.hpp:34-52 | Two addresses share a word if and only if they lie between the same two multiples of four. |
| WarpMemory.CoalesceFacts | src/memory/memory_coalescer.cpp:7-17 | Coalescing yields the strictly increasing list of exactly the line bases the addresses fall in. |
| WarpMemory.CoalesceMinimal | src/memory/memory_coalescer.cpp:7-17 | The transactions cover every address, and every set of lines that does contains them all. |
| WarpMemory.LoadIsFlat | src/memory/memory_system.cpp:85-138 | For every cache geometry, policy and state each lane of a load reads what flat memory holds at its address. |
| WarpMemory.StoreLastWins | src/memory/memory_system.cpp:140-190 | After a store each address holds the value of the last lane that wrote it, or what it held before. |
| WarpMemory.AddSums | src/memory/memory_system.cpp:192-244 | An atomic leaves every address at its initial value plus the sum of what its lanes add there. |
| WarpMemory.AtomicsCommute | src/memory/memory_system.cpp:192-244 | The outcome of an atomic does not depend on the order of the lanes. |
| WarpMemory.ServiceWarpKeepsData | src/memory/memory_system.cpp:85-138 | Timing an instruction, hits, misses and evictions included, never changes the stored data. |
| Occupancy.OccupancyIsAdmission | src/architecture/occupancy.cpp:8-31 | Static occupancy equals dynamic admission: with n identical full blocks resident the next is admitted if and only if n is below the computed number of resident blocks. |
| Occupancy.FactorExhausted | src/architecture/occupancy.cpp:33-50 | The resource named as limiting is one that a further block would exceed. |
| Occupancy.FactorFirst | src/architecture/occupancy.cpp:33-50 | It is the first such resource in the order registers, shared memory, warps, threads, blocks. |
| Occupancy.FiguresMean | src/architecture/occupancy.cpp:46-49 | The reported warps are those of as many resident blocks as reported, and the fraction is the part of the warp slots they fill, between nothing and all. |
| Occupancy.WarpsPerBlockLeast | src/architecture/occupancy.cpp:12-12 | A block takes the fewest warps whose lanes hold its threads. |
| Kernels.GenerateReductionKernel | src/runtime/benchmarks.cpp:710-772 | The generator's loop of pushes and back-patched immediates emits prologue, one round per stride blockSize/2, blockSize/4, ..., 1, and epilogue. |
| Kernels.EmitRound | src/runtime/benchmarks.cpp:725-757 | One pass of the loop appends one round, its SSY and BRANCH patched to the SYNC. |
| Kernels.ReductionWellStructured | src/runtime/benchmarks.cpp:710-772 | For every block size the generated kernel is structured, so everything above applies to it. |
| Kernels.GuardedPasses | src/runtime/benchmarks.cpp:727-749 | The guarded-block emission pattern SSY, CMP, BRANCH, non-empty straight-line body, SYNC is structured wherever no region is open. |
| GridBuilder.BuildReductionGrid | src/runtime/benchmarks.cpp:911-953 | The builder's nested loops yield ceil(n/blockSize) blocks of ceil(threads/warpSize) warps with every thread's address and flag registers; a block size of more than twelve halvings runs out of registers and throws. |
| GridBuilder.GridNumbers | src/runtime/benchmarks.cpp:920-950 | Blocks are numbered in order, and the warps of each block, their priorities being their numbers. |
| ReductionMath.RoundKeepsTotal | src/runtime/benchmarks.cpp:723-757 | The arithmetic of the rounds, for every block size: after every round the partial sums still in use add up to the block's total less what the rounds have left out, the last cell each time an odd number was halved. |
| ReductionRaces.SharedKeepsTotal | src/runtime/benchmarks.cpp:723-757 | The invariant of the rounds, on memory, for every block size: when all threads of a block stand at the start of the phase behind the n-th barrier, the shared cells still in use sum to the total of its input less what the n - 1 rounds have left out. |
| ReductionRaces.SharedKeepsWhole | src/runtime/benchmarks.cpp:723-757 | When the block has no more threads than cells that count, as always when its size is a power of two, they sum to the whole total. |
| ReductionRaces.NoRace | src/runtime/benchmarks.cpp:710-772 | No races, for any two moments of one phase, any two threads, and any interleaving in between: a word one is about to write is not a word the other is about to read or write. |
| Halving.HalvingSumsIff | src/runtime/benchmarks.cpp:723-757 | For every block size: the rounds leave in the first cell the sum of all cells, whatever the first m cells of the block hold, the others being zero, if and only if those m are among the leading cells that count. |
| Halving.AllCountIff | src/runtime/benchmarks.cpp:723-757 | All cells of a block count if and only if the block size is a power of two. |
| Halving.OthersFallShort | src/runtime/benchmarks.cpp:723-757 | If no cell is negative and the first that does not count is positive, what the rounds leave is less than the sum. |
| Halving.SixLoseTheThird | src/runtime/benchmarks.cpp:723-757 | With a block of six the strides are 3 and 1, and the third and sixth cell are left out. |
| Reduction.StepKeepsPhase | src/runtime/benchmarks.cpp:710-772 | A step of any thread inside a phase, in any order with the others, keeps what the phase says of every thread, cell and input, and writes only the block's own cells and output word. |
| ReductionRuns.IssueReducing | src/architecture/sm.cpp:206-263 | Issuing any ready warp keeps the phase of the block, or the last barrier arrival begins the next. |
| ReductionRuns.ReleasedAdvance | src/architecture/sm.cpp:285-296 | When the block is released from a barrier every thread stands at the start of the next phase with its cell finished. |
| ReductionRuns.CompletedTotal | src/runtime/benchmarks.cpp:759-769 | Once every warp of the block has completed, the output word holds what the rounds make of the block's inputs, for every block size. |
| ReductionRuns.CompletedRoom | include/memory/shared_memory.hpp:17-29 | And shared memory then held every cell the block touches: its own cells and its partners' in the first round. |
| ReductionSafety.ReducingExecutes | src/runtime/benchmarks.cpp:710-772 | No instruction of the kernel ever throws over a register or mixed spaces; it throws over an address only if a memory does not hold a word of the block. |
| ReductionBlocks.CoreTick | src/architecture/sm.cpp:141-263 | A tick of an SM on which any number of reduction blocks, partial ones included, are resident keeps every block in some phase and writes to the cells and output of at most one of them; it throws over an address or not at all, and never if the memories hold the blocks. |
| BlockViews.IssueSeen | src/architecture/sm.cpp:206-297 | Issuing a warp, seen from its own block, is issuing it among the warps of that block alone: other resident blocks, and warps that share its id, do not matter. |
| BlockViews.IssueElsewhere | src/architecture/sm.cpp:206-297 | Seen from any other resident block, an issue changes nothing. |
| ReductionGrids.RunReducing | src/architecture/gpu.cpp:52-89 | Any number of iterations on any number of SMs, any schedulers and caches, every block size: every block is in some phase, no block disturbs another, every block that has left its SM has delivered its result; a throw is over an address, and never happens if the memories hold the blocks. |
| ReductionGrids.GridReducesIfDone | src/architecture/gpu.cpp:52-89 | Under any scheduler at all, a run that returns has left what the rounds make of every block in its output word. |
| ReductionGrids.GridReduces | src/architecture/gpu.cpp:52-89 | Total correctness: with work-conserving schedulers a grid of reduction blocks of any size, each fitting an empty SM, runs to completion, and every output word then holds what the rounds make of its block; or it throws over an address, and then some SM's memories do not hold every block. |
| ReductionJobs.ReductionDelivers | src/runtime/benchmarks.cpp:989-1009 | The same grid: the run completes with every output word what the rounds make of its block if shared memory holds the largest cell touched, and throws over an address if not. |
| ReductionJobs.AllAddUpIff | src/runtime/benchmarks.cpp:989-1009 | All inputs of n elements are added up if and only if the first block has no more threads than cells that count; when it is full, if and only if the block size is a power of two. |
| ReductionJobs.MisfitRefused | src/architecture/gpu.cpp:33-50 | A grid whose first block does not fit an empty SM is refused at the launch. |
| ReductionJobs.ReductionSucceedsIff | src/runtime/benchmarks.cpp:989-1009 | For the grid the builder makes of any number of elements and every block size the flag registers allow, its last block partial or not: if shared memory does not hold the largest cell touched the run throws over an address; if it does the run completes, and the benchmark's own correctness check then passes on all inputs if no block has more threads than cells that count, and of positive inputs, as the benchmark's own are, on no others. |
| ReductionDriver.AdmittedButOutOfRange | src/runtime/benchmarks.cpp:911-1009 | Concrete input: eight elements in blocks of four on SMs with shared memory for one block; every block is admitted, and the run throws over an address of the second. |
| ReductionDriver.SixFallShort | src/runtime/benchmarks.cpp:710-772 | Concrete run: six elements in one block of six on an SM with room for them; the run completes, and the output word lacks the third and the sixth element. |
| ReductionDriver.RunReduction | src/runtime/benchmarks.cpp:955-1011 | The host program end to end, as imperative code on the machine's objects: enlarge global memory, make the GPU, store the inputs while summing each block, clear the outputs, build kernel and grid, launch, run, load and compare. For every input, every block size and every configuration with a work-conserving policy it terminates; it fails, for the stated reason (cache dimensions, global memory, flag registers, a block that does not fit, shared memory, the comparison), exactly when that reason holds, and otherwise returns the block sums. |
| ReductionDriver.RunBenchmark | src/runtime/benchmarks.cpp:955-1011 | The benchmark on its own elements i % 5 + 1 passes if and only if the configuration offers the memory and limits named, at most twelve halvings, and no block has more threads than cells that count. |
| ReductionDriver.SixNeedsAll | src/runtime/benchmarks.cpp:994-994 | A block needs 32 registers for each thread and four addresses of shared memory for each cell: with either limit one smaller a block of six does not fit. |
| ReductionDriver.EnlargedMeans | src/runtime/benchmarks.cpp:963-968 | Global memory is raised to 10 MiB and otherwise left as configured. |
| ReductionDriver.StoreInput | src/runtime/benchmarks.cpp:980-985 | Stores the elements four addresses apart and accumulates the host's sum of every block, or throws when global memory is too small. |
| Kernels.EmitEpilogue | src/runtime/benchmarks.cpp:759-769 | Appends the block in which thread 0 writes the sum, its SSY and BRANCH patched to the SYNC. |
| GridBuilder.BuildThread | src/runtime/benchmarks.cpp:929-943 | The register writes of one thread, or the throw when the flag registers run out. |
| GridBuilder.BuildBlock | src/runtime/benchmarks.cpp:920-950 | The warps of one block with their threads, ids and priorities. |
| Warps.Warp.constructor | src/architecture/warp.cpp:5-5 | A new warp is ready at PC 0 with an empty stack, the sentinel reconvergence PC and no active lane. |
| Warps.Warp.AddThread | src/architecture/warp.cpp:7-13 | Appends the thread and activates its lane if the mask is wide enough for it. |
| Warps.Warp.PushSimtStack | src/architecture/warp.cpp:55-57 | Pushes the entry and changes nothing else. |
| Warps.Warp.PopSimtStack | src/architecture/warp.cpp:59-64 | Returns and removes the last entry pushed, or reports an empty stack. |
| Warps.Warp.Stall | src/architecture/warp.cpp:74-80 | Stalling by zero cycles does nothing; otherwise the warp stalls for that long. |
| Warps.Warp.TickStall | src/architecture/warp.cpp:82-90 | A stalled warp counts down and is ready, with the cycle recorded, when the count reaches zero. |
| Warps.Warp.SetCompleted | src/architecture/warp.cpp:92-94 | The warp is completed. |
| Warps.Warp.SetStalledAtBarrier | src/architecture/warp.cpp:96-99 | The warp waits at a barrier. |
| Warps.Warp.SetReady | src/architecture/warp.cpp:101-106 | A warp that was not ready is ready since the given cycle; a ready one keeps its cycle. |
| InstructionExecutor.Execute | src/execution/instruction_executor.cpp:7-293 | The opcode switch on a warp object and a memory system equals the specified step: same new warp, memory, status and latency, and the same throw. |
| InstructionExecutor.ExecuteAlu | src/execution/instruction_executor.cpp:28-78 | The lane loop of ADD, SUB, MUL, MOV and CMP writes the destination register or the predicate of exactly the active lanes. |
| InstructionExecutor.ExecuteLoad | src/execution/instruction_executor.cpp:79-111 | LOAD gathers the active lanes' addresses, asks memory once, and writes each value back to the lane that asked. |
| InstructionExecutor.ExecuteSend | src/execution/instruction_executor.cpp:112-197 | STORE and ATOMIC_ADD send the active lanes' writes in lane order; colliding lanes cost a cycle each beyond the first. |
| InstructionExecutor.LargestCollision | src/execution/instruction_executor.cpp:125-150 | The penalty of the most contended address, from the map of counts. |
| InstructionExecutor.ExecuteBranch | src/execution/instruction_executor.cpp:210-243 | Uniform branches move the warp, divergent ones push the fall-through path and run the taken one. |
| InstructionExecutor.ExecuteSsy | src/execution/instruction_executor.cpp:244-256 | SSY pushes a token with mask, target and outer reconvergence PC. |
| InstructionExecutor.ExecuteSync | src/execution/instruction_executor.cpp:257-276 | SYNC pops the stack: past a token it goes on, to a deferred path it goes back; it throws on an empty stack. |
| StreamingMultiprocessors.SM.IsCompleted | src/architecture/sm.cpp:44-52 | True if and only if every warp has completed. |
| StreamingMultiprocessors.SM.ClearWarps | src/architecture/sm.cpp:54-62 | Drops every warp and resident block and zeroes every allocated amount. |
| StreamingMultiprocessors.SM.CanAdmit | src/architecture/sm.cpp:64-83 | True if and only if every limit still holds with the block added. |
| StreamingMultiprocessors.SM.AllocateBlock | src/architecture/sm.cpp:85-107 | Adds copies of the block's warps and what the block takes; the copies are new objects. |
| StreamingMultiprocessors.SM.ReleaseResident | src/architecture/sm.cpp:117-133 | Erases one block's warps and takes its footprint off the account, the other warps in order. |
| StreamingMultiprocessors.SM.ReleaseCompletedBlocks | src/architecture/sm.cpp:109-139 | The loop that erases while it iterates releases exactly the completed blocks. |
| StreamingMultiprocessors.SM.CountArrivals | src/architecture/sm.cpp:273-283 | The three counts decide whether the whole block has arrived and whether a warp of it has completed. |
| StreamingMultiprocessors.SM.HandleBarrierArrival | src/architecture/sm.cpp:265-297 | The arriver waits; the last one releases its block and nobody else, or reports a malformed barrier. |
| StreamingMultiprocessors.SM.TickStalledWarps | src/architecture/sm.cpp:148-157 | Every stalled warp counts down once. |
| StreamingMultiprocessors.UpdateWarpState | src/architecture/sm.cpp:232-257 | At the end of the kernel the warp resumes a pending path or completes; otherwise it stalls for the rest of the latency. |
| StreamingMultiprocessors.SM.Issue | src/architecture/sm.cpp:206-263 | Fetch, execute, barrier arrival and state update of the selected warp, on the warp objects. |
| StreamingMultiprocessors.SM.Tick | src/architecture/sm.cpp:141-263 | One cycle of the SM object equals the specified tick of its abstract state, memories and scheduler included. |
| Gpus.MakeGpu | src/architecture/gpu.cpp:9-18 | A GPU has the configured number of empty SMs, each with its own scheduler, L1 and shared memory, one L2 and global memory, and the configured latencies and banks, with nothing pending; a zero cache dimension is refused. |
| Gpus.GPU.LaunchKernel | src/architecture/gpu.cpp:27-50 | Launch on the GPU object equals the specified dispatch. |
| Gpus.GPU.FillSm | src/architecture/gpu.cpp:33-48 | One SM is cleared, or relieved of its completed blocks, and given pending blocks while they fit; the other SMs are not touched. |
| Gpus.GPU.LoadBlocks | src/architecture/gpu.cpp:56-72 | Phase 1 of an iteration over all SMs. |
| Gpus.GPU.TickSms | src/architecture/gpu.cpp:74-87 | Phase 2: ticks every SM that has work; the result says whether none had. |
| Gpus.GPU.RunToCompletion | src/architecture/gpu.cpp:52-89 | The loop on the GPU object ends in the state the specified run ends in, or throws what it throws. |
| Memories.GlobalMemory.Load | include/memory/global_memory.hpp:13-18 | The word at the address, or a throw out of range. |
| Memories.GlobalMemory.Store | include/memory/global_memory.hpp:20-25 | Changes exactly that word, or throws and changes nothing. |
| Memories.SharedMemory.Load | include/memory/shared_memory.hpp:17-22 | The word at the address, or a throw out of range. |
| Memories.SharedMemory.Store | include/memory/shared_memory.hpp:24-29 | Changes exactly that word, or throws and changes nothing. |
| Memories.SharedMemory.ComputeBankConflicts | include/memory/shared_memory.hpp:34-52 | The map of banks to word sets yields the largest number of distinct words in one bank, less one; zero without addresses or banks. |
| Memories.CoalesceAddresses | src/memory/memory_coalescer.cpp:7-17 | Collecting line bases in an ordered set and listing it yields the specified transactions. |
| MemorySystems.MemorySystem.ReadLatency | src/memory/memory_system.cpp:8-34 | L1, then L2 on an L1 miss, with the latency, writeback and dirty-eviction count of that path. |
| MemorySystems.MemorySystem.WriteLatency | src/memory/memory_system.cpp:36-61 | The same for a write; the L2 is only read. |
| MemorySystems.MemorySystem.WarpLoad | src/memory/memory_system.cpp:85-138 | A warp load on the objects equals the specified one: values, latency, transactions, conflicts and cache states. |
| MemorySystems.MemorySystem.WarpStore | src/memory/memory_system.cpp:140-190 | A warp store likewise. |
| MemorySystems.MemorySystem.WarpAtomicAdd | src/memory/memory_system.cpp:192-244 | A warp atomic likewise. |
| Caches.MakeCache | src/memory/cache.cpp:9-32 | A cache with a zero dimension is refused; any other starts empty with one policy per set. |
| Caches.Cache.LookupAndFill | src/memory/cache.cpp:34-85 | The lookup over the ways, the fill, the policy calls and the statistics equal the specified access. |
| Caches.Cache.Hit | src/memory/cache.cpp:46-60 | On a hit a write marks the line dirty, the policy is told, and nothing else of the cache changes. |
| Caches.Cache.Fill | src/memory/cache.cpp:62-84 | On a miss the victim is counted if valid, and if dirty, and its way holds the new tag, dirty only for a write. |
| Caches.Cache.Access | src/memory/cache.cpp:87-89 | A read access. |
| Caches.Cache.Write | src/memory/cache.cpp:91-93 | A write access. |
| Policies.LRUPolicy.ChooseVictim | src/memory/lru_policy.cpp:14-28 | An invalid way first, else the last of the recency list. |
| Policies.LRUPolicy.OnAccess | src/memory/lru_policy.cpp:30-36 | Moves the way to the front, the others keeping their order. |
| Policies.FIFOPolicy.ChooseVictim | src/memory/fifo_policy.cpp:9-27 | An invalid way first, else the oldest queued way, which leaves the queue. |
| Policies.FIFOPolicy.OnAccess | src/memory/fifo_policy.cpp:29-37 | Queues the way if it is not queued. |
| Policies.RandomPolicy.ChooseVictim | src/memory/random_policy.cpp:8-26 | An invalid way first, else the next draw reduced to a way. |
| Schedulers.RoundRobinScheduler.SelectWarp | src/scheduling/round_robin_scheduler.cpp:5-20 | The first ready warp in cyclic order; the next scan starts behind it. |
| Schedulers.GreedyScheduler.SelectWarp | src/scheduling/greedy_scheduler.cpp:5-12 | The first ready warp in list order. |
| Schedulers.PriorityScheduler.SelectWarp | src/scheduling/priority_scheduler.cpp:6-32 | The scan with its running best equals the specified choice. |
| Schedulers.OldestFirstScheduler.SelectWarp | src/scheduling/oldest_first_scheduler.cpp:5-25 | The warp that has been ready longest, ties to the smaller id. |
| Schedulers.GTOScheduler.SelectWarp | src/scheduling/gto_scheduler.cpp:5-44 | The last issued warp id while it is ready, else the oldest ready warp, which is remembered. |
| Schedulers.TwoLevelScheduler.UpdateActiveSet | src/scheduling/two_level_scheduler.cpp:6-46 | Erasing, collecting, sorting and appending equal the specified update. |
| Schedulers.TwoLevelScheduler.SelectWarp | src/scheduling/two_level_scheduler.cpp:48-67 | Update, then round-robin among the members. |
| Schedulers.CreateScheduler | src/scheduling/scheduler_factory.cpp:12-28 | The scheduler named by the configuration, in its initial state. |

## Left out

- Tracing, event callbacks, CSV and report writing, configuration files and the command line: input and output only.
- Performance counters, stall reasons, wait and starvation counts, AMAT, IPC and fairness figures: no effect on the state.
- The analyzer, the report generator and the sweep engine.
- Shadow program counters of threads: the machine never reads them; the proofs derive a thread's counter from the warp.
- 32-bit wrap-around of registers: registers, counters and latencies are unbounded integers; program counters, branch
  targets and effective addresses are 64-bit.
- The state after a throw: the methods say what is thrown and leave the objects' contents open.
- The Mersenne Twister of the random policy: its draws are an arbitrary stream.
- Warps of more than 32 threads: the builder's lanes beyond the mask's width stay inactive, as in the code, and the
  reduction theorems ask for at most 32 lanes.
- The vector-add, memcpy, GEMM and histogram drivers; of the histogram only the guarded-block pattern it shares.
- ReductionDriver.RunReduction: asks for at least one SM, a policy other than two-level, under which the loop may run for
  ever, warps of at most 32 lanes and buffers below the first shared address; a block size of zero divides by zero in the
  code and is excluded. The line it prints and the counters it reports are left out.
- The single-address load and store of the memory system, which no warp instruction uses.
- Virtual dispatch: policies and schedulers are reached through a datatype with one case per class; the default scheduler
  and policy names other than the known ones are not modelled.
- The library sort in the two-level scheduler is an insertion by the same comparison.
- Gpus.GPU.RunToCompletion: takes a ghost bound on the number of iterations, because the loop of the code need not end;
  GpuTermination.GpuFinishes and ReductionJobs.ReductionDelivers supply one.
- Termination.Terminates: allows a throw over the program's data; ReductionSafety.ReducingExecutes says exactly which one
  the reduction kernel can meet, an address outside its memories.
