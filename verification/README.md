# Verification of the bot orchestrator's core

This Dafny project models the engine of a Minecraft bot orchestrator and proves
what its parts promise. `dafny verify dfyconfig.toml` checks all of it.

* **Frame scheduler** (`SchedulerTypes`, `Digraph`, `Ordering`, `Builder`, `PhaseOrder`, `WaveCompiler`,
  `PlanCompiler`, `PlanOrder`, `Concurrency`, `Executor`, `SerialEquivalence`, `FrameCommits`, `Envelopes`). Systems
  are programs of single steps over component columns, so a wave is every interleaving of their steps. Compilation is
  proved exact and deterministic, and its plan to run every registered system once, after all it was declared to come
  after, waiting only for a reason. The runtime is proved to follow the plan, every frame to equal running its systems
  one at a time, by order, and to commit exactly what they staged, in that order.
* **Craft planner** (`CraftRegistry`, `CraftPlanning`, `CraftSemantics`, `CraftSoundness`, `CraftExactness`,
  `CraftReplanning`, `CraftPlanner`, `CraftDecision`). Over every acyclic registry whose tools are never ingredients,
  the planner offers steps exactly when the target can be reached, uses the fewest crafts of each item, and replanning
  after each step offers the rest of the plan. The behavior that picks among several targets stays with the first one
  that can be reached until it is held, exactly unless an empty stack of it turns up. The static recipes qualify.
* **Entity world** (`EcsTypes`, `EcsWorld`, `EcsRefinement`, `EcsSync`, `EcsHandles`, `EcsMachine`). Column tables,
  locations, generations, the free list and the profile index refine a plain map from handle to bundle; a deferred
  batch takes effect as a whole or not at all; handles are never reused short of 2^32 destructions of one index,
  whatever batches are committed.
* **Chunk store** (`ChunkWords`, `ChunkPacked`, `ChunkSections`, `ChunkColumns`, `ChunkStore`, `ChunkMachine`). From
  shifts and masks on 64-bit words up to the views of all bots, the store refines a map from block position to id;
  which calls keep stored columns in step with the bound dimension is exact over whole runs.
* **Controller protocol** (`ControllerTypes`, `ControllerDelta`, `ControllerLink`, `OneShotProtocol`,
  `OneShotSafety`, `GoalTicks`, `OneShotMachine`). Deltas keep host and engine in agreement under every interleaving
  of a session, every delta that sets a one-shot is accounted for, every tick of the host starts all that it holds,
  every goal tick sends what it decided on, and one-shot actions are published one at a time and settled at most
  once.
* **Goal arbitration** (`PlanCache`, `Arbitration`) and **framing** (`Framing`).

`Options` holds the one optional-value type they share, `Sequences` a few facts about taking sequences apart.

Where the original updates state in place there is a class whose methods are proved equal to a function of the old
state (`Executor`, `CraftPlanner`, `EcsMachine`, `ChunkMachine`, `OneShotMachine`, `PlanCache`, `Framing`,
`Builder`); the theorems are about those functions, and say in terms of fields, masks, cells and counts what they do. The original's map iterations are loops that pick any remaining
element, so their results hold for every iteration order.

## Assumptions

* Systems keep to their declared access: what a step does depends only on columns in `Reads|Writes`, and it changes
  only columns in `Writes` (`Concurrency.Obeys`). World resources are outside `AccessSpec` and outside the columns.
* Bundles are well typed, as the type assertions of the original demand.
* Word arrays and columns are not shared, and packed indices lie inside the palette, which the section constructors
  do not check.
* For the one-shot theorems, event sequences start at one, and a report of the current session names only sequences
  published in it. Deltas carry no session id, so one that is still under way during a reconnect is outside this.
* At most 2^32 entity indices are handed out.

## Where the code differs from what one would expect

* `AddSystem` looks for duplicates in a map that is never filled, so it accepts a repeated id. A phase with a repeated
  id never compiles (`WaveCompiler.SharedIdDoesNotCompile`, `WaveCompiler.CompilePhase`); one id in two phases does.
* `migrateNow` accepts a profile that another entity owns (`EcsRefinement.MigrateCanStealAProfile`).
* Turning a section to its direct form masks ids to fifteen bits (`ChunkSections.TurningDirectMasksLargeIds`).
* `floorChunk` overflows below -2^31+15; those blocks can be neither read nor set (`ChunkColumns.FloorChunkExact`).
* `BindDimension` keeps chunks of another geometry (`ChunkStore.BindingCanBreakTheMatch`), and so does
  `SetDimensionTypes` when a bound type that was lost is found again (`ChunkStore.LosingATypeCanBreakTheMatch`). Over
  every run the columns match exactly while every type made active over loaded chunks has the geometry that was active
  last (`ChunkStore.MatchedExactly`; one call at a time `ChunkStore.BindingMatches`, `ChunkStore.TypesMatch`).
* An event of sequence zero can reset a controller without changing the session
  (`OneShotSafety.SequenceZeroResetsInPlace`); a reset changes it exactly from sequence one on
  (`OneShotSafety.ResetChangesSession`).
* `Push` drops the frames it has already decoded when a later one is too large (`Framing.OversizeLosesItsPush`). All
  good frames are returned exactly when some cut falls between the last of them and the end of the oversized prefix
  (`Framing.GoodFramesReturned`).
* `hasItem` takes an empty stack for a held item, the planner does not (`CraftDecision.HeldMeansRealStack`), so the
  crafting behavior can pass over a target it could reach (`CraftDecision.EmptyStackMisleads`). It takes the first
  target that is not held and can be reached exactly when there is no stack of that one, and stays with it over its
  whole plan exactly when none turns up (`CraftDecision.DecidedIsChoice`, `CraftDecision.DecisionStays`).
* A one-shot that is decided on while none is in flight is not always published: not if it is what was sent last
  (`OneShotSafety.RepeatIsNotSent`). After every run it is published exactly when it is not
  (`OneShotSafety.PublishedUnlessSentLast`).
* `DestroyCommand` has no `DeclaredAffected` and so does not satisfy the `Command` interface; batches are modelled
  over create and destroy as their `validate` and `apply` are written.

## Model

| member | source | states |
|---|---|---|
| Builder.Builder.AddPhase | orchestrator/internal/engine/scheduler/builder.go:38-56 | refuses exactly an empty or already registered id; otherwise files the phase last in registration order; the builder's invariant is kept |
| Builder.Builder.AddSystem | orchestrator/internal/engine/scheduler/builder.go:72-110 | refuses exactly an unknown phase, an empty id, a component both read and written, or an empty query; in particular an id that is already registered is accepted; orders stay distinct |
| Builder.ValidIsRegistered | orchestrator/internal/engine/scheduler/builder.go:38-110 | every builder meets what compilation assumes of the phases it is given |
| PhaseOrder.SortedPhases | orchestrator/internal/engine/scheduler/compiler.go:93-145 | the Kahn loop fails with an unknown phase exactly when a dependency names one, with a cycle exactly when the known dependencies are cyclic, and otherwise returns every phase once, always the earliest-registered ready one next; the registration maps are visited in an arbitrary order |
| PhaseOrder.GreedyIsUnique | orchestrator/internal/engine/scheduler/compiler.go:112-138 | there is only one order that always takes the earliest-registered ready phase, so no map iteration order can change the result |
| PhaseOrder.GreedyIsTopological | orchestrator/internal/engine/scheduler/compiler.go:123-138 | that order puts every dependency before its dependants and repeats nothing |
| PhaseOrder.EarlierWaits | orchestrator/internal/engine/scheduler/compiler.go:123-138 | a phase comes before one registered earlier only if that one waits for it or for a phase in between |
| PhaseOrder.BlockedIsCyclic | orchestrator/internal/engine/scheduler/compiler.go:140-142 | if phases are left and none is ready, the dependencies contain a cycle (a closed walk, not the negation of sortability) |
| PhaseOrder.OrderedIsAcyclic | orchestrator/internal/engine/scheduler/compiler.go:140-144 | a complete topological order rules out every cycle |
| WaveCompiler.CompilePhase | orchestrator/internal/engine/scheduler/compiler.go:147-240 | fails with a foreign reference exactly when one is declared, with a cycle exactly when the after/before graph is cyclic or an id is shared, and otherwise returns greedy waves that place every id |
| WaveCompiler.ConflictExactly | orchestrator/internal/engine/scheduler/compiler.go:246-270 | two systems do not conflict exactly when neither writes a column the other reads or writes, no archetype one may dirty has all the components of a query of the other, and at most one has structural effects |
| WaveCompiler.PackLeaves | orchestrator/internal/engine/scheduler/compiler.go:213-226 | a ready candidate is left for a later wave exactly when it is not independent, in those terms, of a candidate kept before it |
| WaveCompiler.DeclaredOrderHolds | orchestrator/internal/engine/scheduler/compiler.go:159-191 | every name in after is placed in a strictly earlier wave, every name in before in a strictly later one |
| WaveCompiler.WaitsForAReason | orchestrator/internal/engine/scheduler/compiler.go:193-239 | no system waits needlessly: the wave before its own has a declared predecessor of it, or a member registered no later that it is not independent of |
| WaveCompiler.CompiledWaves | orchestrator/internal/engine/scheduler/compiler.go:193-239 | with distinct ids the waves are non-empty, hold each system exactly once, have members that are pairwise independent by their masks, queries and effects, and every declared edge leads to a strictly later wave |
| WaveCompiler.WavesAreUnique | orchestrator/internal/engine/scheduler/compiler.go:199-226 | with distinct orders, which every builder gives, the waves are determined whatever order the ready map is visited in |
| WaveCompiler.SharedIdDoesNotCompile | orchestrator/internal/engine/scheduler/builder.go:87-107 | two systems with one id, which the builder accepts, have local references and no cycle and still fall under the cycle error of CompilePhase |
| WaveCompiler.PackProperties | orchestrator/internal/engine/scheduler/compiler.go:213-226 | the greedy packing keeps no two conflicting candidates and always keeps the first one, so a wave is never empty |
| PlanCompiler.Compile | orchestrator/internal/engine/scheduler/compiler.go:12-91 | succeeds exactly when the phases can be ordered and each phase compiles, and then returns the plan of greedy phases, greedy waves and syncs where a wave queries something dirty or anything is dirty at the end |
| PlanCompiler.PlansAreSound | orchestrator/internal/engine/scheduler/compiler.go:18-88 | in every compiled plan no wave starts while an archetype it queries is dirty; a sync stands exactly where the next wave, of the same phase, queries something dirty, or at the end when something is dirty; waves have no conflicts and declare exactly what they dirty, the k-th system of the plan has order k, and nothing is dirty at the end |
| PlanCompiler.PlanIsUnique | orchestrator/internal/engine/scheduler/compiler.go:12-91 | the registered phases determine the plan |
| PlanCompiler.DirtyListElements | orchestrator/internal/engine/scheduler/compiler.go:49-52 | the recorded list of a wave holds exactly the masks its systems declare |
| PlanOrder.ExactlyRegisteredSystemsRun | orchestrator/internal/engine/scheduler/compiler.go:25-74 | a system is in a wave of a phase of the plan exactly when it was registered in that phase |
| PlanOrder.SystemsRunOnce | orchestrator/internal/engine/scheduler/compiler.go:25-74 | no registered system is in two waves, or twice in one |
| PlanOrder.PhasesRunInOrder | orchestrator/internal/engine/scheduler/compiler.go:93-145 | every wave of a phase comes after every wave of the phases it was declared to come after |
| PlanOrder.PhasesRunInOnePiece | orchestrator/internal/engine/scheduler/compiler.go:18-74 | the waves of one phase are not interrupted by those of another |
| PlanOrder.WavesAreNumbered | orchestrator/internal/engine/scheduler/compiler.go:25-74 | the waves of a phase are numbered from zero on |
| PlanOrder.SystemsRunInOrder | orchestrator/internal/engine/scheduler/compiler.go:147-240 | in the plan a system runs in a later wave than everything that after and before put in front of it |
| Concurrency.TurnExactly | orchestrator/internal/engine/scheduler/executor.go:94-127 | a turn is one step of the one system, on the columns as they are; a system that has returned and all others stay as they are |
| Concurrency.InterleavedAsAlone | orchestrator/internal/engine/scheduler/executor.go:94-127 | under every interleaving of the steps of systems that keep to their access, at every moment each system has done and sees on its columns exactly what it would alone, and nothing undeclared is written |
| Concurrency.SchedulesAgree | orchestrator/internal/engine/scheduler/executor.go:94-127 | any two interleavings in which every system returns end with the same columns and the same commands |
| Executor.Executor.RunFrame | orchestrator/internal/engine/scheduler/executor.go:36-77 | the walk over the nodes computes the specified frame: sync, mismatch check, wave, and the pending-commands check at the end |
| Executor.Executor.RunWave | orchestrator/internal/engine/scheduler/executor.go:85-159 | the wave computes the specified run, which WaveExactly spells out: interleaved steps, results checked in index order, commands staged in commit order with the dirty list of the node |
| Executor.FirstErrorExactly | orchestrator/internal/engine/scheduler/executor.go:129-147 | a wave passes exactly when no system failed, none without structural access staged a command, and every affected archetype is declared; otherwise the error names the first system whose result breaks this, and what is wrong with it |
| Executor.CollectAt | orchestrator/internal/engine/scheduler/executor.go:129-158 | every command of every system is collected once, at its place by system and staging, tagged with the order of its system and its own sequence |
| Executor.WaveExactly | orchestrator/internal/engine/scheduler/executor.go:85-159 | a wave succeeds exactly when every system returned and every result is right, and then exactly the collected commands join the queue in commit order; otherwise it stages nothing and reports the first wrong result |
| Executor.RuntimeFollowsPlan | orchestrator/internal/engine/scheduler/executor.go:48-70 | starting clean, after any compiled prefix the runtime dirty set is the one the compiler computed, and the plan/runtime mismatch and pending-commands errors are unreachable |
| Executor.FramesEndClean | orchestrator/internal/engine/scheduler/executor.go:36-77 | every frame of a compiled plan that does not fail ends with an empty queue and an empty dirty set; a failure is never a mismatch or pending commands |
| FrameCommits.SyncExactly | orchestrator/internal/engine/core/sync.go:13-62 | a sync with an empty queue only forgets what is dirty; otherwise it commits the sorted queue as a whole, or keeps the queue and the columns and fails |
| FrameCommits.NodeExactly | orchestrator/internal/engine/scheduler/executor.go:48-69 | a wave is refused exactly when one of its systems queries what is dirty at run time, and the first such system is named |
| FrameCommits.FrameExactly | orchestrator/internal/engine/scheduler/executor.go:36-77 | a frame succeeds exactly when its nodes do and nothing is left queued |
| FrameCommits.FramesCommitWhatIsStaged | orchestrator/internal/engine/scheduler/executor.go:36-158 | a successful frame of a compiled plan commits every command its systems staged exactly once, all in all in the order of systems and of staging, however the waves were interleaved |
| Executor.World.Stage | orchestrator/internal/engine/core/world.go:276-281 | staging appends to the queue and adds the declared masks to the dirty set |
| SerialEquivalence.WaveIsSerial | orchestrator/internal/engine/scheduler/executor.go:94-158 | one wave under any schedule, and the same wave with its systems one after another, end in the same columns, queue and dirty set or report the same error |
| SerialEquivalence.FramesAreSerial | orchestrator/internal/engine/scheduler/executor.go:36-158 | the same for whole frames of every compiled plan: under every interleaving that finishes, and every serial schedule that finishes, the same queues are committed in the same order and the world or the error is the same; a serial schedule that finishes exists, namely each system with the turns it had |
| SerialEquivalence.FramesFinishSerially | orchestrator/internal/engine/scheduler/executor.go:94-127 | whenever a frame finishes, running its systems one by one, each for as many steps as it had, finishes too |
| SerialEquivalence.SplitIsByOrder | orchestrator/internal/engine/scheduler/compiler.go:43-49 | the frame taken apart runs the systems of the plan by order: the k-th one has order k |
| Envelopes.SortSorts | orchestrator/internal/engine/core/sync.go:19-25 | the stable insertion of envelopes keeps every envelope and orders them by system order, then sequence |
| Envelopes.SortedStays | orchestrator/internal/engine/core/sync.go:19-25 | a queue already in commit order is left as it is |
| Envelopes.SortsByTags | orchestrator/internal/engine/core/sync.go:19-25 | the sort leaves the same envelopes, ascending by system and within a system by sequence, and a queue that is so already as it is |
| Envelopes.CommandBuffer.Stage | orchestrator/internal/engine/core/command.go:121-128 | a buffer wraps its commands in order with consecutive sequences of its own system |
| CraftRegistry.StaticRegistryQualifies | orchestrator/internal/mc_protocol/registry/recipes.go:27-71 | the recipe table is acyclic, uses only usable recipes, and never consumes a table or prerequisite: the hypotheses of the planner theorems |
| CraftSemantics.CraftableExactly | orchestrator/internal/engine/ai/craft.go:36-75 | one craft is possible exactly with the table if the recipe needs it, the prerequisites, and every ingredient in its count at hand |
| CraftSemantics.CraftedExactly | orchestrator/internal/engine/ai/craft.go:50-75 | it adds the output, takes each ingredient in its count, and changes no other count |
| CraftSemantics.StaticRecipesByHand | orchestrator/internal/mc_protocol/registry/recipes.go:27-71 | what planks, table and sticks take |
| CraftSemantics.StaticRecipesAtTheTable | orchestrator/internal/mc_protocol/registry/recipes.go:27-71 | what the pickaxes and the axe take, the table and the wooden pickaxe included |
| CraftPlanning.PlanIsLabelled | orchestrator/internal/engine/ai/craft.go:67-73 | every step crafts a registered item at least once and says whether its recipe needs a table |
| CraftPlanner.Planner.Plan | orchestrator/internal/engine/ai/craft.go:32-76 | the recursive planner with its mutable counts, appended steps and cycle-guard stack computes the specified plan on every registry, cyclic or not, terminates, and leaves the stack as it was |
| CraftPlanner.InventoryCounts | orchestrator/internal/engine/ai/craft.go:82-91 | the counts are what the named, positive stacks hold of each item |
| CraftPlanner.HeldAdds | orchestrator/internal/engine/ai/craft.go:82-91 | what is held of a name adds up over the slots |
| CraftPlanner.HeldOne | orchestrator/internal/engine/ai/craft.go:82-91 | a slot counts with its stack, if that has a name and holds something |
| CraftPlanner.CraftSteps | orchestrator/internal/engine/ai/craft.go:15-24 | the offered steps are those of the specified plan for one target, none when the target has no recipe or planning fails |
| CraftPlanner.CanCraft | orchestrator/internal/engine/ai/craft.go:103-105 | with the static recipes, true exactly when the target is not held and some sequence of single crafts from this inventory reaches it |
| CraftSoundness.PlanSound | orchestrator/internal/engine/ai/craft.go:32-76 | a successful plan can be carried out from the counts it was made for, up to what it still reserves, leaves at least the required amount, and disturbs nothing ranked above its target |
| CraftSoundness.StepsCanBeCarriedOut | orchestrator/internal/engine/ai/craft.go:15-76 | carrying out the steps in order never lacks an ingredient, the table or a prerequisite, and ends with at least one target, although the planner deducts ingredients earlier than the steps consume them |
| CraftExactness.PlannerIsExact | orchestrator/internal/engine/ai/craft.go:15-76 | over every acyclic registry with unconsumed tools, steps are offered exactly when the target is not held and some sequence of crafts reaches it |
| CraftExactness.PlanIsLeast | orchestrator/internal/engine/ai/craft.go:50-76 | no sequence of crafts that reaches the target crafts any item fewer times than the plan does |
| CraftReplanning.ReplanningIsStable | orchestrator/internal/engine/ai/craft.go:15-76 | planning again for a target after carrying out the first step offers exactly the other steps |
| CraftReplanning.OneStepARoundFinishes | orchestrator/internal/engine/ai/craft.go:15-76 | for one target, one step a round follows the first plan to its end and holds the target after exactly as many rounds as that plan has steps |
| CraftDecision.CraftStepNow | orchestrator/internal/engine/ai/behavior_engine.go:440-458 | the first step towards the first target of which there is no stack and for which there are steps, or none |
| CraftDecision.HeldMeansRealStack | orchestrator/internal/engine/ai/craft.go:82-91 | the planner counts an item as held exactly when it has a name and some stack of it holds something |
| CraftDecision.DecidedIsChoice | orchestrator/internal/engine/ai/behavior_engine.go:440-458 | the decision takes the first target that is not held and can be reached exactly when no stack, which would be empty, has the name of that target; otherwise it takes a later one or none |
| CraftDecision.EmptyStackMisleads | orchestrator/internal/engine/ai/scoring.go:211-218 | with four planks and an empty stack of tables, the decision passes over the table it could craft, one case outside the condition of DecidedIsChoice |
| CraftDecision.ChoiceStays | orchestrator/internal/engine/ai/behavior_engine.go:440-458 | after one round of deciding and crafting, the choice among the targets never goes back, and it stays with its target and the rest of its plan until the last step makes it held |
| CraftDecision.ChoiceIsFinished | orchestrator/internal/engine/ai/behavior_engine.go:440-458 | deciding afresh every round works off the first plan of the chosen target step by step; the target is held after exactly as many rounds as that plan has steps, and only then is a later one chosen |
| CraftDecision.DecisionStays | orchestrator/internal/engine/ai/behavior_engine.go:440-458 | over inventories that follow the decisions, in whatever stacks, the first target that can be reached is decided on in every round of its plan exactly when no stack of it turns up before, and then it is held at the end |
| CraftDecision.StaticTargetsQualify | orchestrator/internal/engine/ai/behavior_engine.go:442 | the behavior's five targets are never ingredients of the static recipes, as the two results above demand |
| EcsRefinement.CreateInserts | orchestrator/internal/engine/core/world.go:125-166 | a create is refused exactly for an invalid bundle or a profile some live bot has; otherwise the world, seen as a map from handle to bundle, gains exactly one handle that was not live, and the invariant holds again |
| EcsRefinement.CreateRefuses | orchestrator/internal/engine/core/world.go:125-140 | a create is refused as invalid exactly without components, with a negative maximum of health or with profile zero, and as taken exactly when otherwise a live bot has the profile |
| EcsRefinement.DestroyRemoves | orchestrator/internal/engine/core/world.go:168-201 | a destroy is refused exactly for a handle that is not live; otherwise exactly that handle leaves the map despite the swap-remove, and the invariant holds again |
| EcsRefinement.MigrateReplaces | orchestrator/internal/engine/core/world.go:203-259 | a migrate succeeds exactly for a live handle in the expected archetype and a valid destination, replaces exactly its bundle, and keeps the invariant if and only if no other entity owns the destination's profile |
| EcsRefinement.MigrateCanStealAProfile | orchestrator/internal/engine/core/world.go:250-256 | two bots, the second migrating to the first one's profile: accepted, and the profile index no longer matches the live bots |
| EcsRefinement.IndexIsTheLiveBots | orchestrator/internal/engine/core/world.go:33-34 | under the invariant the profile index maps a profile to a handle exactly when that handle is a live bot with that profile |
| EcsRefinement.AttachRefines | orchestrator/internal/engine/core/world.go:142-163 | adding a row gives its entity the bundle and changes what no other handle reads |
| EcsRefinement.DetachRefines | orchestrator/internal/engine/core/world.go:174-192 | removing a row by swapping in the last one changes what no other handle reads |
| EcsTypes.RemoveRowBundles | orchestrator/internal/engine/core/table.go:246-270 | after a swap-remove each remaining row reads as before, and the hole as the last row did |
| EcsMachine.Table.AddEntity | orchestrator/internal/engine/core/table.go:162-177 | appends the entity and one cell per column, or changes nothing when the masks differ |
| EcsMachine.Table.RemoveSwap | orchestrator/internal/engine/core/table.go:246-270 | takes the row out of the entity list and of every column, returns its bundle and the entity that moved, or changes nothing when the row is out of range |
| EcsMachine.Table.ReadRow | orchestrator/internal/engine/core/table.go:192-204 | returns the bundle stored in the row |
| EcsMachine.World.EnsureTable | orchestrator/internal/engine/core/world.go:58-68 | the table of the mask exists afterwards, and no other changes |
| EcsMachine.World.AllocateEntity | orchestrator/internal/engine/core/world.go:82-100 | reuses the last freed index with its current generation, or appends a new one |
| EcsMachine.World.ReadBundle | orchestrator/internal/engine/core/world.go:102-123 | the bundle a handle that resolves reads, none for a stale or dead one |
| EcsMachine.World.CreateNow | orchestrator/internal/engine/core/world.go:125-166 | updates tables, locations, free list and index in place to the specified new world, or leaves everything on an error |
| EcsMachine.World.DestroyNow | orchestrator/internal/engine/core/world.go:168-201 | the same for destroy, including the generation that wraps at 32 bits |
| EcsMachine.World.MigrateNow | orchestrator/internal/engine/core/world.go:203-259 | the same for migrate |
| EcsSync.ValidateAllAccepts | orchestrator/internal/engine/core/command.go:30-51 | validating a batch on the shadow succeeds exactly when every command is acceptable in the present world and no two create one profile or destroy one entity |
| EcsSync.CommitSucceeds | orchestrator/internal/engine/core/sync.go:52-56 | every apply of a validated batch succeeds, also where freed indices are reused; created handles were never live before the batch |
| EcsSync.SyncIsAllOrNothing | orchestrator/internal/engine/core/sync.go:13-62 | an acceptable queue empties and its destroys and creates all take effect; any other leaves all data, the dirty set and the queue (sorted) in place; the commit-invariant error is unreachable |
| EcsSync.EffectExactly | orchestrator/internal/engine/core/sync.go:39-62 | after a batch took effect an entity is live exactly if it was and no command destroys it, with its old bundle, or if the batch created it, with the bundle of its command |
| EcsSync.ReserveKeeps | orchestrator/internal/engine/core/sync.go:39-50 | reserving destination tables changes no entity, index or generation |
| EcsSync.ReserveMakesTables | orchestrator/internal/engine/core/sync.go:39-50 | reservation makes an empty table for exactly the archetypes to be created that have none, and touches nothing else |
| EcsMachine.ShadowState.EntityBundle | orchestrator/internal/engine/core/command.go:30-51 | looks an entity up once, remembers it, and finds none once it is destroyed in the batch |
| EcsMachine.ShadowState.ValidateCreate | orchestrator/internal/engine/core/command.go:154-176 | accepts and reserves, or refuses, as specified for a create |
| EcsMachine.ShadowState.ValidateDestroy | orchestrator/internal/engine/core/command.go:183-208 | accepts and marks dead, or refuses, as specified for a destroy |
| EcsMachine.World.Sync | orchestrator/internal/engine/core/sync.go:13-62 | sort, validate, reserve and commit in place compute the specified outcome and never return the commit-invariant error |
| EcsHandles.FreshHandles | orchestrator/internal/engine/core/world.go:82-100 | after any run, the handle a create returns was issued before if and only if its index has been destroyed 2^32 times or more |
| EcsHandles.StaleHandles | orchestrator/internal/engine/core/world.go:102-114 | after any run, a handle that resolves was issued, and it was destroyed before if and only if its index has been destroyed 2^32 times or more |
| EcsHandles.FreeIndices | orchestrator/internal/engine/core/world.go:194-198 | after any run, free indices are distinct, never zero, and exactly those no live entity has |
| EcsHandles.LastFreedIsNext | orchestrator/internal/engine/core/world.go:82-100 | the index destroyed last is the next one handed out, in its next generation modulo 2^32 |
| EcsHandles.SyncIsARun | orchestrator/internal/engine/core/sync.go:13-62 | a sync, committed or refused, is a run of table reservations, creates and destroys that ends in the world it leaves |
| EcsHandles.FramesAreRuns | orchestrator/internal/engine/core/sync.go:13-62 | whatever batches are synced one after the other, with what a refused one leaves queued, the world and its history are those of one run of single operations |
| EcsHandles.BatchesKeepHandlesSafe | orchestrator/internal/engine/core/sync.go:13-62 | after any batches no handle was issued twice unless its index was destroyed 2^32 times, and a handle that resolves was destroyed before exactly when its index was |
| ChunkWords.LaneWritten | orchestrator/internal/engine/model/chunks.go:242-255 | shifting and masking reads back, modulo the lane's width, the value that was masked and shifted in |
| ChunkWords.OtherLane | orchestrator/internal/engine/model/chunks.go:249-255 | writing a lane leaves every disjoint lane of the 64-bit word alone |
| ChunkPacked.PutGet | orchestrator/internal/engine/model/chunks.go:242-255 | a packed set changes one cell, to its value in the packed width, and no other of the 4096, for every width |
| ChunkPacked.GetReadsBits | orchestrator/internal/engine/model/chunks.go:242-247 | with n = 64 / bits lanes to a word, cell i is the number in word i / n, in the bits from (i % n) * bits on |
| ChunkPacked.RepackedGet | orchestrator/internal/engine/model/chunks.go:257-263 | copying cells into another width keeps each modulo that width |
| ChunkPacked.LaneFits | orchestrator/internal/engine/model/chunks.go:237-245 | every cell's lane lies inside one of the counted words |
| ChunkSections.SetRefines | orchestrator/internal/engine/model/chunks.go:159-221 | a section set is refused exactly when the direct form is too narrow; an accepted one writes its cell, and leaves every other cell alone if and only if no turn to the direct form masks one of them |
| ChunkSections.TurningDirectMasksLargeIds | orchestrator/internal/engine/model/chunks.go:202-211 | a full palette of ids from 2^15 on: setting one cell to a new id zeroes the others |
| ChunkSections.SetIndirect | orchestrator/internal/engine/model/chunks.go:175-200 | the palette form grows its palette and width without changing any other cell |
| ChunkSections.FormAfterSet | orchestrator/internal/engine/model/chunks.go:159-221 | which form a section takes: two palette entries in four bits, a palette that grows by the new state, one bit wider when it is full, and the direct form with fifteen bits past eight |
| ChunkSections.StateMeans | orchestrator/internal/engine/model/chunks.go:157-213 | a packed number is a place in the palette, or the state itself in the direct form; a single state fills the section |
| ChunkColumns.NonAirStaysExact | orchestrator/internal/engine/model/chunks.go:147-152 | a non-air count equal to the number of non-zero cells still is after any set |
| ChunkColumns.CountMoves | orchestrator/internal/engine/model/chunks.go:146-152 | in sixteen bits the count moves by one exactly when the cell changes between air and something else |
| ChunkColumns.CellInjective | orchestrator/internal/engine/model/chunks.go:132-139 | no two positions of a column share a section and cell, with 32-bit arithmetic |
| ChunkColumns.CellExactly | orchestrator/internal/engine/model/chunks.go:116-125 | from minY on a position has a cell exactly inside the column, and counted over the sections it is number (y - minY) * 256 + z * 16 + x |
| ChunkColumns.CellSteps | orchestrator/internal/engine/model/chunks.go:116-125 | the first cell is at the bottom corner; the number grows by one with x, by 16 with z and by 256 with y, across section borders too |
| ChunkColumns.SetBlockInRefines | orchestrator/internal/engine/model/chunks.go:132-155 | a column set succeeds exactly inside the column where the section takes the value, and keeps the column well-formed, its counts exact and its ids small |
| ChunkColumns.BlockInAfter | orchestrator/internal/engine/model/chunks.go:116-155 | after a successful set exactly that position of the column reads differently |
| ChunkColumns.FloorChunkExact | orchestrator/internal/engine/model/resources.go:264-269 | the chunk coordinate is the floor of v/16 exactly from -2^31+15 on; below it the local coordinate falls outside the chunk |
| ChunkStore.SetSucceeds | orchestrator/internal/engine/model/resources.go:161-178 | a set succeeds exactly for the current attempt, at a block that can be read, in a section that can hold the id |
| ChunkStore.BatchExactly | orchestrator/internal/engine/model/resources.go:185-193 | a batch of updates runs exactly for the current attempt, with an active dimension and a chunk map, be it empty |
| ChunkStore.SetRefines | orchestrator/internal/engine/model/resources.go:161-178 | a successful set changes what is read at exactly that position of that profile, for every 32-bit coordinate; a failed one changes nothing |
| ChunkStore.CountsStayExact | orchestrator/internal/engine/model/resources.go:185-220 | non-air counts stay exact over any list of updates with ids below 2^15 |
| ChunkStore.ReadableExactly | orchestrator/internal/engine/model/resources.go:222-233 | in a view whose columns match the dimension, a block can be read exactly when it is in height, its chunk is loaded, and its coordinates do not overflow |
| ChunkStore.BlockIsAtItsNumber | orchestrator/internal/engine/model/chunks.go:116-125 | in a matched view the block at a position is the state of the column of chunk (x / 16, z / 16) at cell (y - minY) * 256 + z % 16 * 16 + x % 16, and there is one exactly inside the height |
| ChunkStore.StoredBlocks | orchestrator/internal/engine/model/resources.go:130-146 | a column that was just stored reads like that throughout its chunk, and every other chunk reads as before |
| ChunkStore.SetMovesVersion | orchestrator/internal/engine/model/resources.go:161-178 | a set that succeeds moves the version of its own chunk by one and leaves every other chunk and the rest of the view alone |
| ChunkStore.ReplaceMovesVersion | orchestrator/internal/engine/model/resources.go:130-146 | a column is stored exactly if it has the active geometry, as it is but for its version, which follows that of the column it replaces |
| ChunkStore.BindExactly | orchestrator/internal/engine/model/resources.go:91-106 | a type can be bound exactly if it stands at the place of its own id; nothing else of the view changes |
| ChunkStore.TypesExactly | orchestrator/internal/engine/model/resources.go:65-89 | new types activate or deactivate the bound one by whether it is among them; chunks are dropped, and epoch and revision move, exactly if the active geometry changes |
| ChunkStore.ReloadMatches | orchestrator/internal/engine/system/systems.go:467-476 | the three calls made for a chunk of new geometry leave a view that matches, whatever was there before |
| ChunkStore.ChunksStayMatched | orchestrator/internal/engine/model/resources.go:130-178 | loading, unloading and setting blocks keep stored columns matching the active geometry |
| ChunkStore.BindingMatches | orchestrator/internal/engine/model/resources.go:91-106 | binding a type keeps an active, matching view matching exactly when nothing is loaded or the geometry stays the same |
| ChunkStore.TypesMatch | orchestrator/internal/engine/model/resources.go:64-89 | new types keep every active view matching; an inactive one exactly when its bound type is still missing or its chunks fit the type found again |
| ChunkStore.MatchedExactly | orchestrator/internal/engine/model/resources.go:64-178 | over every run of calls on a view, stored columns match the active geometry throughout exactly when every type made active over loaded chunks has the geometry that was active last |
| ChunkStore.BindingCanBreakTheMatch | orchestrator/internal/engine/model/resources.go:91-106 | a view that matches and a binding that keeps its chunks and loses the match, one case outside the condition of BindingMatches |
| ChunkStore.LosingATypeCanBreakTheMatch | orchestrator/internal/engine/model/resources.go:64-89 | a bound type that is lost and found again with another geometry meets the old chunks, one case outside the condition of TypesMatch |
| ChunkMachine.PackedStates.Get | orchestrator/internal/engine/model/chunks.go:242-247 | reads the specified cell from the word array |
| ChunkMachine.PackedStates.Set | orchestrator/internal/engine/model/chunks.go:249-255 | writes the specified cell into the word array in place |
| ChunkMachine.PackedStates.Resize | orchestrator/internal/engine/model/chunks.go:257-263 | copies every cell into fresh words of another width |
| ChunkMachine.StoredStates.ToDirectStates | orchestrator/internal/engine/model/chunks.go:202-211 | decodes every cell into fresh words of fifteen-bit lanes |
| ChunkMachine.SetStates | orchestrator/internal/engine/model/chunks.go:159-221 | the three forms set a cell, in place where they can, to the specified states; a refusal leaves the old words as they were |
| ChunkMachine.ChunkColumn.SetBlockState | orchestrator/internal/engine/model/chunks.go:132-155 | updates one section's words and count in place as specified; other sections keep theirs |
| ChunkMachine.WorldViews.BeginAttempt | orchestrator/internal/engine/model/resources.go:52-57 | the profile's view starts over, empty, under the new attempt; all others stay |
| ChunkMachine.WorldViews.SetBlockState | orchestrator/internal/engine/model/resources.go:161-178 | updates the stored column in place to the specified views |
| ChunkMachine.WorldViews.SetBlockStates | orchestrator/internal/engine/model/resources.go:185-220 | the batch leaves the same blocks and versions as folding single sets over the list, and returns false exactly when no batch is allowed |
| ChunkMachine.WorldViews.BlockState | orchestrator/internal/engine/model/resources.go:222-233 | reads the specified block, whose cell BlockIsAtItsNumber gives by number |
| ChunkMachine.WorldViews.ReplaceChunk | orchestrator/internal/engine/model/resources.go:130-146 | stores a column of matching geometry one version after the one it replaces, for the current attempt only |
| ChunkMachine.WorldViews.UnloadChunk | orchestrator/internal/engine/model/resources.go:148-159 | removes exactly the named loaded chunk |
| ChunkMachine.WorldViews.SetDimensionTypes | orchestrator/internal/engine/model/resources.go:65-89 | rebinds the active type, and drops the chunks when its geometry changed |
| ChunkMachine.WorldViews.BindDimension | orchestrator/internal/engine/model/resources.go:91-106 | binds a known type for the current attempt and keeps the chunks |
| ControllerTypes.NormalizedIsExclusive | orchestrator/internal/engine/model/utility_ai.go:311-328 | validation leaves at most one of break, attack, craft, place and consume, changes nothing that already is exclusive, and never touches goto and equip |
| ControllerTypes.FirstSurvives | orchestrator/internal/engine/model/utility_ai.go:311-328 | of break, attack, craft, place and consume each survives exactly when none before it in this list is set |
| ControllerTypes.DecisionSetsOneField | orchestrator/internal/engine/system/systems.go:1357-1391 | a decision's state sets a one-shot field exactly when its action is a one-shot, and then that field alone |
| ControllerTypes.DecisionIsCarriedOut | orchestrator/internal/engine/system/systems.go:1357-1398 | field by field: the field of the action, and no other, holds its target, the block or destination by kind, the entity, the item with its count; breaking and attacking also hold where to move; this determines the state |
| ControllerDelta.DiffControllerState | orchestrator/internal/engine/model/utility_ai.go:330-386 | the delta that is filled in field by field holds exactly the changed values and the cleared fields |
| ControllerDelta.DiffNoneWhenEqual | orchestrator/internal/engine/model/utility_ai.go:382-385 | there is no delta exactly when the two states are equal |
| ControllerDelta.DeltaExactly | orchestrator/internal/engine/model/utility_ai.go:330-386 | a field is sent exactly when its value is new and cleared exactly when it lost one |
| ControllerDelta.DecodeControllerState | bots/src/host.ts:443-482 | decoding reads the clear list and then the values, giving for each field absent, null or a value |
| ControllerDelta.DecodeRestoresChanges | bots/src/host.ts:448-480 | what the host decodes is exactly what changed, field by field |
| ControllerDelta.MergeExactly | bots/src/mineflayer_adapter.ts:74-79 | for every delta, a value sent becomes the target, a cleared field loses it, and any other keeps it |
| ControllerDelta.DeltaRoundTrip | bots/src/mineflayer_adapter.ts:74-79 | diff, decode and merge take the last state to the current one |
| ControllerLink.PublishExactly | orchestrator/internal/engine/system/systems.go:1075-1091 | publishing makes the state the last one sent, with one delta in the channel exactly if it differs from the one before |
| ControllerLink.HostAgrees | bots/src/mineflayer_adapter.ts:315-317 | however publishing, FIFO delivery and ticks interleave, the host's goto, break and attack targets equal those last sent at the prefix delivered, and each one-shot target sent is either still held unchanged or was started, exactly once and with that target, by a tick after the delta that set it was merged |
| ControllerLink.DeliverExactly | bots/src/mineflayer_adapter.ts:315-317 | delivering merges the oldest delta of the channel and takes it out |
| ControllerLink.CaughtUp | bots/src/mineflayer_adapter.ts:315-317 | in every run a host that has merged everything has the sustained targets that were published last |
| ControllerLink.MissingWasStarted | bots/src/mineflayer_adapter.ts:399-417 | a one-shot target that was sent and that the host no longer holds was started with that target by some tick since its delta was merged |
| ControllerLink.DeltasAreAccounted | bots/src/mineflayer_adapter.ts:399-417 | in every run the delivered deltas that set a one-shot field are as many as its starts, plus one if it is still held, plus those replaced or cleared before a tick |
| ControllerLink.StartedAtMostOncePerDelta | bots/src/mineflayer_adapter.ts:399-417 | in every run each one-shot action is started at most once for every delivered delta that set its field |
| ControllerLink.Adapter.Tick | bots/src/mineflayer_adapter.ts:360-417 | starts what Started lists and leaves no craft and no place target, no equip or consume target but an empty name, and the sustained targets as they were |
| ControllerLink.TickStartsAll | bots/src/mineflayer_adapter.ts:399-417 | a tick starts craft, equip, consume and place, in this order, exactly when that target is set, an empty item name not being one, and starts nothing else |
| ControllerLink.EveryTickStartsAll | bots/src/mineflayer_adapter.ts:399-417 | in every run every tick is recorded, and each started all that the host held then |
| ControllerLink.NothingWaitsAfterATick | bots/src/mineflayer_adapter.ts:399-417 | after any run, a tick starts everything the host holds with its targets, and the host holds none of it any more |
| ControllerLink.Adapter.ApplyState | bots/src/mineflayer_adapter.ts:315-317 | merges the delta into the private state |
| OneShotMachine.BotColumns.HandleEvent | orchestrator/internal/engine/system/systems.go:113-146 | one event updates session, AI, controller and reality of a bot as specified, with the reset before the sequence check |
| OneShotMachine.BotColumns.Accept | orchestrator/internal/engine/system/systems.go:358-414 | an event of a new session starts the controller over; the session is stored exactly when the sequence is new |
| OneShotMachine.BotColumns.ReconcileOneShotFeedback | orchestrator/internal/engine/system/systems.go:1412-1435 | the first outcome with the in-flight sequence and action settles it, and counts only while its goal and target are selected |
| OneShotMachine.BotColumns.RunGoalTick | orchestrator/internal/engine/system/systems.go:1027-1100 | one goal tick updates the columns and publishes as specified, which TicksSendDecisions spells out; nothing is kept for a bot that is not ready or has no outbox |
| GoalTicks.TicksSendDecisions | orchestrator/internal/engine/system/systems.go:1064-1091 | after any run, the state sent last is, field by field, what carries out the decision of the tick: always for goto, break and attack; for a one-shot unless another is in flight, when it stays, or was just settled, when it is empty; without an action it is empty; something is published exactly when this differs from before |
| GoalTicks.EventExactly | orchestrator/internal/engine/system/systems.go:358-419 | an event moves the session, to its id, sequence and phase, exactly when it is about one and its sequence is above the last one there; it empties controller and memory exactly when it names a session that is not the one of the bot |
| GoalTicks.ReportExactly | orchestrator/internal/engine/system/systems.go:675-713 | a report replaces what was reported exactly when it names the session of the bot; every other event that names a new session clears it |
| GoalTicks.FeedbackExactly | orchestrator/internal/engine/system/systems.go:1412-1435 | the first reported outcome of the one-shot in flight clears it, and is filed with its goal, target and fingerprint as failed or completed exactly when goal and target are still selected; otherwise nothing changes |
| GoalTicks.CompletionIsNotRepeated | orchestrator/internal/engine/system/systems.go:1428-1430 | the tick that learns of a completion remembers the plan and, while its fingerprint stands, does not decide on the same one-shot again |
| OneShotSafety.RunsAreSafe | orchestrator/internal/engine/system/systems.go:121-146 | the whole invariant holds after every run: each one-shot of the current controller is settled or in flight but not both, sequences are fresh, settled ones were published, and reports belong to the current session |
| OneShotSafety.AtMostOneInFlight | orchestrator/internal/engine/system/systems.go:1065-1084 | after every run at most one published one-shot of the current controller is unsettled, and it is the one in flight |
| OneShotSafety.PublishesOnlyWhenIdle | orchestrator/internal/engine/system/systems.go:1075-1091 | after every run, a tick whose delta sets a one-shot field leaves no earlier one unsettled, and the delta's sequence is above all of this controller's and is the correlation put in flight |
| OneShotSafety.FreeTick | orchestrator/internal/engine/system/systems.go:1064-1091 | a tick that decides on a one-shot with none in flight puts it in flight with the sequence it is published under and its goal, target, fingerprint, count and item |
| OneShotSafety.SettlesOnceBySession | orchestrator/internal/engine/system/systems.go:1417-1434 | after every run, a tick settles at most one, never one settled before, by a report of the current session that arrived after it was published |
| OneShotSafety.FailureIsNotRepeated | orchestrator/internal/engine/system/systems.go:1425-1427 | the tick that learns of a failure remembers the plan in flight and, while that plan's fingerprint still stands, does not decide on the same goal, target and fingerprint again |
| OneShotSafety.PublishedUnlessSentLast | orchestrator/internal/engine/system/systems.go:1064-1091 | after any run, a one-shot decided on while none is in flight and none was just settled for it is published and put in flight exactly when it is not the state sent last |
| OneShotSafety.RepeatIsNotSent | orchestrator/internal/engine/system/systems.go:1064-1091 | a reachable run after which a one-shot is decided on and not sent: its first completion arrived under another goal and did not count, and its state is still the one sent last |
| OneShotSafety.ResetMeansNewSession | orchestrator/internal/engine/system/systems.go:358-385 | with sequences from one on, the controller starts over exactly when the stored session changes, and what an old session reported is forgotten with it |
| OneShotSafety.ResetChangesSession | orchestrator/internal/engine/system/systems.go:358-385 | a reset changes the stored session exactly when the event's sequence is at least one; at sequence zero the session stays and the controller starts over |
| OneShotSafety.SequenceZeroResetsInPlace | orchestrator/internal/engine/system/systems.go:363-372 | an event of sequence zero from another session starts the controller over while the old session stays stored, one case of ResetChangesSession |
| PlanCache.FailedPlanCache.Add | orchestrator/internal/engine/model/utility_ai.go:133-144 | adds in place, shifting the oldest entry out of a full cache, whatever the stored count |
| PlanCache.CacheIsTheNewest | orchestrator/internal/engine/model/utility_ai.go:131-144 | after any additions the cache holds exactly the newest sixteen plans, oldest first |
| Arbitration.SelectGoal | orchestrator/internal/engine/ai/scoring.go:233-246 | for every score map: the first goal in priority order with the highest score, absent goals reading as zero, and idle when no goal of the catalog reads above -1 |
| Arbitration.SelectBest | orchestrator/internal/engine/ai/behavior_engine.go:160-190 | building the score map, selecting by score and looking the winner up finds the best remaining goal, or none |
| Arbitration.BestIsTop | orchestrator/internal/engine/ai/behavior_engine.go:160-190 | the winner is an eligible goal that is not suppressed, no other scores higher, ties go by priority; there is none exactly when none remains |
| Arbitration.RemainsExactly | orchestrator/internal/engine/ai/behavior_engine.go:160-190 | a goal of the six is in the running exactly when its score is positive, or it is idling and the session is ready, and its decision did not fail before and is no one-shot already done |
| Arbitration.TopsExactly | orchestrator/internal/engine/ai/scoring.go:233-246 | a goal beats another by score, idling counting 0.05, and on a tie by its place in flee, fight, eat, craft, gather, idle |
| Arbitration.InvalidateCachedPlans | orchestrator/internal/engine/ai/behavior_engine.go:271-285 | keeps exactly the plans that are not one-shots, have no fingerprint, or whose fingerprint is unchanged |
| Arbitration.InvalidateStalePlans | orchestrator/internal/engine/ai/behavior_engine.go:251-264 | drops exactly the fingerprinted plans of the decision's goal, action and target with another fingerprint |
| Arbitration.KeptOfAppend | orchestrator/internal/engine/ai/behavior_engine.go:251-285 | invalidation goes through the plans one by one and keeps those it keeps in their order |
| Arbitration.ReconcileWithFeedback | orchestrator/internal/engine/ai/behavior_engine.go:106-136 | one tick invalidates, selects, applies the decision and records why the last goal ended, as specified |
| Arbitration.NoSuppressedDecision | orchestrator/internal/engine/ai/behavior_engine.go:174-181 | a decision never matches a plan that remains in the failed cache, nor, for a one-shot, in the completed cache |
| Arbitration.FailureHoldsWhileCurrent | orchestrator/internal/engine/ai/behavior_engine.go:271-298 | a failed plan outlives invalidation exactly while its fingerprint stands, and while it does its decision is not made |
| Arbitration.ReconcileExactly | orchestrator/internal/engine/ai/behavior_engine.go:106-136 | one tick remembers exactly the plans whose fingerprint stands and that no one-shot decided on outdates, and records the failure or completion it learned of, otherwise a cancellation exactly when the goal changes |
| Arbitration.DecidesWhenSomeGoalRemains | orchestrator/internal/engine/ai/behavior_engine.go:106-136 | a tick has a decision exactly when some goal remains, and then it is the top one's |
| Framing.EncodeFrame | orchestrator/internal/hosttransport/frame.go:16-21 | fills a buffer with the four-byte big-endian length and the payload |
| Framing.PrefixRoundTrip | orchestrator/internal/hosttransport/frame.go:18 | the prefix reads back as the length modulo 2^32 |
| Framing.PrefixDigits | orchestrator/internal/hosttransport/frame.go:18 | the prefix holds the four digits of the length to base 256, the highest first |
| Framing.Decoder.Push | orchestrator/internal/hosttransport/frame.go:38-57 | appends, takes every whole frame off the front, and keeps the rest; none is returned when a length is above the maximum |
| Framing.DrainResumes | orchestrator/internal/hosttransport/frame.go:38-57 | taking frames off what was left together with new bytes is taking them off the whole |
| Framing.AnyFragmentation | orchestrator/internal/hosttransport/frame.go:16-57 | for every list of payloads within the maximum and every way to cut their encoding, pushing the pieces yields exactly those payloads in order |
| Framing.BufferIsUnconsumedSuffix | orchestrator/internal/hosttransport/frame.go:38-57 | after every push the frames so far are the first payloads and the buffer is the rest of what was pushed, without a whole frame |
| Framing.OversizeFails | orchestrator/internal/hosttransport/frame.go:44-46 | a payload above the maximum makes some push fail and stays in front of the buffer with all that follows |
| Framing.GoodFramesReturned | orchestrator/internal/hosttransport/frame.go:38-57 | however much of a stream with an oversized frame has arrived in whatever pieces, all good frames before it have been returned exactly when some piece ends between the last of them and the end of the oversized prefix |
| Framing.OversizeLosesItsPush | orchestrator/internal/hosttransport/frame.go:40-46 | a good frame that arrives in the same push as an oversized one is not returned, one case outside the condition of GoodFramesReturned |

## Left out

- Executor.RunFrame: does not say that a frame ends when a system never returns; a wave that does not finish under its schedule is set apart as hung.
- SerialEquivalence.FramesAreSerial: of a frame that fails it compares the error and the commits, not the columns, because the other systems of the wave have run; committing a queue is a function of the columns and the queue that `EcsSync` does not instantiate.
- OneShotSafety.RunsAreSafe: does not claim that a one-shot is ever answered; controller sequences are unbounded numbers, not 64-bit.
- ControllerLink.HostAgrees: does not speak about a reconnect, because deltas carry no session id; it holds for one session from its start.
- ChunkStore.SetRefines: is stated for views whose ids are below 2^15; what happens to larger ids is exact per section in `ChunkSections.SetRefines`.
- EcsHandles.FreshHandles: is about runs of creates, destroys, migrates that take no other entity's profile, and reservations; running out of 2^32 indices is excluded, for batches too.
- CraftDecision.DecisionStays: is about rounds whose inventory holds what crafting makes of the last one, in any stacks; what the bot picks up or loses in between is not part of it.
- The numeric order of masks, `tableOrder` and `matching`: masks are sets of components and tables are looked up by mask.
- In-place writes of component columns by systems, slice capacity growth, and cloning of component values.
- Overflow of machine integers in craft counts.
- The texts of errors and sync reasons; only which error occurs is modelled, and in a frame which system it names.
- WorkerPool, goroutines inside one system, panics, logging, contexts and time.
- How scores and decisions arise (perception, threat, escape and wander destinations): they are inputs, with eligibility as the behaviors define it and the constant idle score; scores are reals, so NaN does not occur.
- The bits of the plan fingerprint: it is any function of goal, action, target, count and item to place.
- Hostile memory, traces and the emergency flag, which do not influence the choice among given scores.
- Goal destinations are given as blocks; truncation of floating-point coordinates is not modelled.
- Attribution of craft, equip, consume and place outcomes inside the host, and Mineflayer itself.
- Entity views, perception views, block perception and `UpdatePerception`, which are plain map updates.
- `WorldViews.Remove` and the getters that copy views, chunks and counts.
- Process, socket, protobuf, configuration and chunk-decoding code.
- The item, food and block tables, and the unused helpers of the system package.
