# A verified model of eirctl's scheduler and its helpers

This project models the parts of eirctl where a mistake would be hardest to see, and proves
what they are for.  It is written in Dafny 4.11 and stands alone: `dafny verify dfyconfig.toml`
checks all of it.

## What is modelled

**The execution graph** (`digraph.dfy`, `bfs.dfy`, `stages.dfy`, `execution_graph.dfy`). A graph of stages
is a class with the three maps the program has (`nodes`, `parent`, `children`), appended to in place. After
every new edge a depth-first search looks for a cycle; the search, its two mark tables and its early return
are modelled as they are. An edge is refused if and only if it closes a cycle, and both adjacency maps list
the same edges equally often. The breadth-first listing returns exactly the stages that can be reached, each
once, in order of distance.

**Building a pipeline** (`pipeline_config.dfy`, `well_built.dfy`, `library.dfy`). The loop that turns
definitions into stages and the loop that checks dependencies accept exactly the definitions that
resolve, have unique allowed names, name only declared stages and are free of cycles; what they return
has one stage for each definition, set up as it says, and is *well built*, the invariant the scheduler
relies on. Pipelines run each other by name; the tree of graphs a pipeline stands for is finite exactly
when it runs no pipeline that runs itself.

**The scheduler** (`scheduler.dfy`, `scheduler_safety.dfy`, `scheduler_theorems.dfy`,
`scheduler_history.dfy`, `scheduler_termination.dfy`, `scheduler_bound.dfy`, `status_board.dfy`). One
polling loop per graph being scheduled and one worker per started stage, on all levels of nesting at
once, as a step relation whose steps are single loads and stores. An invariant of all reachable states
gives safety: a stage starts at most once and only under parents that let it, final statuses stay,
nothing runs after a return, cancelled runs included. The results of conditions and tasks in a run decide
how every stage ends and what error is returned, and what a pipeline definition asks for is what its
stage does. After a cancellation no loop begins another sweep. Every run ends: while a graph is being
scheduled some step that counts is possible, and in any run the steps that count, which are all but the
polling of a graph that waits for a worker, are bounded by a number that depends on the pipeline only. It
ends with every stage in a final status unless it was cancelled. The parent check and the done check are
also modelled as the loops they are, and shown to come to the same as the steps on a board that shows the
state.

**Denormalizing** (`paths.dfy`, `unfolding.dfy`, `sharing.dfy`, `call_trees.dfy`, `flatten_runs.dfy`,
`table_entries.dfy`, `lookups.dfy`, `rebuilt.dfy`, `table_updates.dfy`, `denormalize.dfy`,
`denormal_theorems.dfy`, `shared_inputs.dfy`, `variables.dfy`). A pipeline with nested pipelines is
flattened into one shared table under `->`-joined path names, and a tree of graphs is rebuilt from the table
by looking names up by prefix and depth, while the table is being updated. For trees with plain names, no
clashing neighbours and no pipeline that is skipped in one place and flattened in another, the result has,
on every level, the original stages and dependencies renamed by path; the recursion ends and no cycle is
ever reported. Pass-through pipelines (a single stage that runs a pipeline) are skipped, and the rewriting
of the skipped stage, which all users of the pipeline share, is part of the state: what a clone starts with
depends on the uses before it. Flattening goes through nodes and children in any order; its runs are the
runs of a tree of calls, and which use can be the last to write before the last clone of a stage is read off
that tree. This gives exactly when all clones start as their definitions say. The environment a task is left
with is characterised key by key from what the clones started with. `variables.dfy` is the store whose
merging is modelled by adding maps.

**The workflow policy** (`workflows.dfy`, `root_events.dfy`, `privileged_flow.dfy`). Root events are passed
along calls of reusable workflows, in place and in any order, until nothing changes. The result is the least
solution, described by call chains, and the check that is made with it accepts exactly the repositories in
which no risky job can be reached with authority.

**Config imports** (`import_graph.dfy`, `import_loader.dfy`). The recursive loader with its visited map and
its merging of tasks, pipelines and contexts loads exactly the reachable sources, and fails exactly when one
cannot be fetched or two of them define the same name.

**Source materializing** (`tree_validation.dfy`, `materialize.dfy`). A bounded selection from a repository
tree that does not depend on the order of its entries, and a copy of it onto a file system every operation
of which may fail: either all files are there, each at its path, or nothing has changed, and then there is a
reason for it.

**Base 62 and the cache** (`base62.dfy`, `cache.dfy`). The encoding of source names is a round trip for
exactly the byte strings that do not begin with a zero byte, so on those the cache is a map from sources.

## What the proofs show about the program

* Two stages that run the same pass-through pipeline can see each other's variables: skipping it writes the
  user's variables into the shared stage, and the next user's clone gets them.  A config of two such stages
  side by side is accepted, and some order of flattening leaves the task of the second with the variable of
  the first (`SharedInputs.SecondSeesFirst`, `SharedInputs.TaskOfSecondSeesFirst`).  It never shows exactly
  if each use that can be the last to write a key before the last clone of a stage, for some order, leaves
  what the stage has anyway (`FlattenRuns.StartIsDefined`, `FlattenRuns.StartsAreDefined`); a condition that
  does not look at the order is enough but not needed (`FlattenRuns.AgreeingUsesDoNotShow`,
  `SharedInputs.FirstIsDefined`).
* The same writing renames the shared stage: looked up afterwards in its own pipeline it is found only if it
  was skipped for a stage of its own name (`Denormalizing.SkippedIsNotFound`).
* A pipeline that runs itself, directly or through others, is accepted, and has no finite tree to flatten
  (`PipelineLibraries.SelfNestingIsAccepted`, `PipelineLibraries.FiniteExactly`).
* `depends_on: [root]` is accepted when a pipeline is built, because the root node is a node of that
  name, but denormalizing renames it to a path no stage has (`DenormalTheorems.RootDependencyIsAccepted`,
  `DenormalTheorems.RootDependencyBreaks`; `DenormalTheorems.ResultIsWellBuilt`: the result is well built
  if and only if no stage does this).
* Two neighbouring stages that run pipelines and whose names are like `build` and `build-all` clash: a
  lookup below the first also finds the stages of the second.  Such names are accepted
  (`DenormalTheorems.NeighboursAreAccepted`).  `Lookups.NeighboursClash` says exactly when two names
  clash: the one begins the other, or is the other with a dash appended; all lookups in a tree with plain
  names are exact if and only if no neighbours clash (`Lookups.LookupsNeedTidiness`).
* The check that a pipeline has a starting point can never fire: the root node has no dependencies and is
  counted as one.
* The check for forbidden characters compares whole names, so a name that contains `->` passes; names are
  therefore required to be plain where path names matter.
* The environment of a graph overrides that of its tasks, which the comments in the code do not say
  (`DenormalTheorems.TaskPrecedence`).
* A zero byte in front of a source name does not change its cache file (`ConfigCache.ZeroByteCollides`).

## Model

| member | source | states |
|---|---|---|
| Digraph.NewEdgeCycle | scheduler/graph.go:195-202 | adding an edge to an acyclic graph closes a cycle exactly when the edge's end already reached its start |
| ExecutionGraphs.OrderShows | scheduler/graph.go:175-177 | a listing shows a stage exactly if its name is reachable and not the root |
| Digraph.NewCycleUsesNewEdge | scheduler/graph.go:198-202 | any cycle that appears runs through the start of the new edge, so searching from there is enough |
| Digraph.RankedIsAcyclic | scheduler/graph.go:204-228 | numbers falling along every edge rule out cycles |
| Stages.InverseAppend | scheduler/graph.go:198-200 | appending an edge to both maps keeps them exact inverses, counting multiplicity |
| Stages.HangEdge | scheduler/graph.go:103-111 | after hanging a stage under a list, the edges are the old ones and one from each list entry to the stage |
| ExecutionGraphs.ExecutionGraph.constructor | scheduler/graph.go:52-65 | a new graph given no stages holds the root node only, stored as "root", named like the graph, with nothing set |
| ExecutionGraphs.ExecutionGraph.CycleDfs | scheduler/graph.go:206-228 | ends; without an error every node left is on no cycle, with one there is a cycle through the reported edge |
| ExecutionGraphs.ExecutionGraph.AddEdge | scheduler/graph.go:198-202 | passes if and only if the graph stays acyclic, if and only if the child did not reach the parent before; both maps get the edge and stay inverse |
| ExecutionGraphs.ExecutionGraph.AddEdges | scheduler/graph.go:106-111 | hangs a stage under its dependencies up to the first that closes a cycle, and leaves exactly those edges |
| ExecutionGraphs.ExecutionGraph.AddStage | scheduler/graph.go:99-114 | refused exactly when its edges would close a cycle; the node is added either way; if it is not refused it hangs under all its dependencies in order, or under "root" if it has none |
| ExecutionGraphs.ExecutionGraph.Parents | scheduler/graph.go:134-141 | the parents by name, each the stage of that name, a missing one with no value |
| ExecutionGraphs.ExecutionGraph.Node | scheduler/graph.go:125-131 | the stage of that name, or none |
| ExecutionGraphs.ExecutionGraph.BFSNodesFlattened | scheduler/graph.go:159-188 | exactly the reachable names but the root, each once, in nondecreasing distance, and under each name the stage of that name |
| BreadthFirst.LevelsAreLeast | scheduler/graph.go:169-186 | the level at which a name is enqueued is at most the length of any walk to it |
| BreadthFirst.LevelsGiveOrder | scheduler/graph.go:169-187 | an exhausted walk lists the reachable names in order of true distance |
| WellBuiltGraphs.ReachableFromRoot | internal/config/pipeline.go:90-115 | in a well built graph every stage can be reached from the root node |
| WellBuiltGraphs.BreadthFirstIsComplete | scheduler/graph.go:151-188 | for a well built graph the breadth-first list is the list of all stages |
| PipelineConfig.DependencyGraphEdges | internal/config/pipeline.go:85-88 | the edges built from definitions are exactly the declared dependencies, those of the root node on stages without any included |
| PipelineConfig.AcceptableIsProper | internal/config/pipeline.go:21-116 | which definitions are accepted, said of the definitions alone: their tasks and pipelines exist, their names are allowed and differ, their dependencies are among them, and these make no circle |
| PipelineConfig.CheckDependencies | internal/config/pipeline.go:90-113 | succeeds if and only if every dependency is a stage; the missing starting point cannot occur |
| PipelineConfig.BuildPipeline | internal/config/pipeline.go:21-116 | no error if and only if the definitions are acceptable; then the graph is well built and holds exactly one stage per definition, with its name, condition, leave to fail, environment, dependencies and task or pipeline; an error is real |
| PipelineLibraries.FiniteExactly | internal/config/config.go:105-121 | an accepted pipeline stands for a finite tree of graphs, built as accepted from its definitions, if and only if it runs no pipeline that runs itself |
| PipelineLibraries.EndlessHasLongChains | internal/config/config.go:116-117 | from any other, chains of stages that run pipelines go on to any length |
| PipelineLibraries.SelfNestingIsAccepted | internal/config/config.go:116-117 | a config that is accepted and has such a pipeline |
| PipelineLibraries.UnfoldingIsDeep | internal/config/config.go:105-121 | the finite tree is well built on all its levels |
| ScheduleSafety.StatusMovesForward | scheduler/scheduler.go:57-101 | every step moves every status only forward |
| ScheduleSafety.VerdictsLast | scheduler/scheduler.go:172-204 | a parent that passes, blocks or has left goes on doing so after any step |
| ScheduleSafety.StepKeeps | scheduler/scheduler.go:40-110 | every step of every loop and worker keeps the invariant |
| ScheduleSafety.ReachableInv | scheduler/scheduler.go:40-110 | the invariant holds after every interleaving |
| ScheduleSafety.ActiveAbove | scheduler/scheduler.go:135-138 | the graphs around a graph that is being scheduled have not returned before it |
| ScheduleSafety.ErrorsTellFailures | scheduler/graph.go:230-242 | when its workers are done, a graph's error list is empty exactly if no task inside it failed |
| ScheduleTheorems.FinalStatusesStay | scheduler/scheduler.go:57-101 | done, skipped, cancelled and unforgiven failed stages keep their status in every continuation |
| ScheduleTheorems.NothingRunsAfterReturn | scheduler/scheduler.go:50-110 | after a graph's run returns nothing in it or nested in it runs, also in cancelled runs |
| ScheduleHistory.StartsAreJustified | scheduler/scheduler.go:78-101 | only stages of the tree start, each at most once, and only when every parent in its graph is done or skipped or failed with leave, which lasts; a cancelled stage never started and has a parent that was cancelled or failed without leave |
| ScheduleHistory.ConditionsDecide | scheduler/scheduler.go:63-76 | over any run: only stages with a condition are tested; one is skipped exactly if its condition was not met, fails unstarted exactly if it could not be evaluated, and starts only if it was met every time it was evaluated |
| ScheduleHistory.UnmetIsFinal | scheduler/scheduler.go:72-75 | after a condition was not met its stage stays skipped, is never started and never tested again |
| ScheduleHistory.HowStagesEnd | scheduler/scheduler.go:57-107 | how the stages of a returned graph ended, given what tasks, nested runs and conditions came to: done exactly if the work ended well or may fail, failed exactly if it failed and may not; in an uncancelled run skipped exactly if the condition was not met, and cancelled exactly if a parent held it back otherwise |
| ScheduleHistory.ErrorMeansTaskFailed | scheduler/scheduler.go:92-109 | a graph returns an error if and only if a task in it or below it returned one in the run, allowed or not |
| ScheduleHistory.OneErrorPerFailedStage | scheduler/graph.go:230-242 | a returned graph records one error for each direct stage whose task or nested run failed, and no other |
| ScheduleHistory.CancelledExactly | scheduler/scheduler.go:65-69 | a run is cancelled exactly if it was interrupted or a loop found a condition that could not be evaluated |
| ScheduleHistory.CancelStopsStarts | scheduler/scheduler.go:52-55 | once the run is cancelled, only stages are started that a sweep under way had still to look at |
| ScheduleHistory.DefinitionsDecide | internal/config/pipeline.go:41-50 | from definition to run: the stage of a definition is tested only if that has a condition, starts only if it was met and all it depends on lets it, and ends as done after a failure exactly if the definition allows failure |
| ScheduleTheorems.CancellationHasACause | scheduler/scheduler.go:176-192 | following blocked parents from a cancelled stage reaches a stage that failed without leave |
| ScheduleTheorems.SweepDecides | scheduler/scheduler.go:57-102 | a whole sweep decides every stage whose parents had left when it began, whatever runs beside it |
| ScheduleTheorems.FirstWaiting | scheduler/scheduler.go:52-102 | with no cycle and nothing running, some waiting stage has no waiting parent |
| ScheduleTheorems.SweepIsProductive | scheduler/scheduler.go:52-105 | a sweep that begins with a waiting stage and none running leaves some waiting stage decided |
| ScheduleTheorems.ChangesAreBounded | scheduler/scheduler.go:52-107 | the statuses of a graph change at most three times per stage |
| ScheduleTheorems.QuietSweepsAreFew | scheduler/scheduler.go:52-107 | in any run the sweeps that find waiting stages and none running are bounded by the size of the graph |
| ScheduleTermination.NeverStuck | scheduler/scheduler.go:52-110 | while a graph is being scheduled some step is possible other than an interrupt or the polling of a graph that waits for a worker |
| ScheduleTermination.LoopStepSpends | scheduler/scheduler.go:52-107 | with no worker of a graph live, every step of its loop leaves fewer steps until a stage changes or it returns |
| ScheduleTermination.LoopStepsAreSpent | scheduler/scheduler.go:52-107 | in any run, as long as nothing in the graph changes, the steps its loop takes and those left afterwards never exceed those left before |
| ScheduleTermination.LoopStepsAreBounded | scheduler/scheduler.go:52-107 | these steps are bounded by the number of stages only |
| ScheduleTermination.DoneCheckGoesThrough | scheduler/scheduler.go:124-133 | once all stages have left, the whole done check under way goes through in any run and no other sweep begins |
| ScheduleTermination.DoneCheckReturns | scheduler/scheduler.go:107-133 | with no worker live it takes one read per stage and two steps more, and the run of the graph has returned |
| ScheduleTermination.FinishGraph | scheduler/scheduler.go:40-110 | the run of a graph, with those nested in it, can be brought to its end from every state |
| ScheduleTermination.RunCanEnd | scheduler/scheduler.go:40-110 | from every reachable state the run can be completed without an interrupt, with every stage of every started graph in a final status unless it was cancelled |
| ScheduleBounds.RunsAreBounded | scheduler/scheduler.go:40-110 | in any run the steps other than the polling of graphs that wait for a worker are bounded by a number that depends on the pipeline only |
| ScheduleBounds.RunsEnd | scheduler/scheduler.go:40-110 | a run that has taken that many of them has returned, and until it has one of them is possible |
| StatusBoards.Board.CheckStatus | scheduler/scheduler.go:172-204 | true if and only if every parent passes; the statuses change only by cancelling the stage under a blocking parent |
| StatusBoards.Board.ReadParents | scheduler/scheduler.go:176-193 | the verdict on every parent, whatever the order of reads |
| StatusBoards.Board.IsDone | scheduler/scheduler.go:124-133 | true if and only if nothing waits or runs |
| StatusBoards.UndisturbedCheck | scheduler/scheduler.go:172-204 | the parent reads of one check, undisturbed and in any order, leave the loop ready exactly if all parents pass and cancel the stage exactly if one blocks |
| StatusBoards.CheckAgrees | scheduler/scheduler.go:172-204 | on a board that shows the state, the parent check and the single reads give the same answer, and the board shows the state again |
| StatusBoards.DoneAgrees | scheduler/scheduler.go:124-133 | on a board that shows the state, the done check and the single reads give the same answer |
| Paths.SplitCascade | internal/utils/utils.go:497-500 | cutting a cascaded name gives back the parents and the name, also when parts end in a dash or begin with an angle bracket |
| Paths.SplitJoin | internal/utils/utils.go:495-500 | cutting a joined list of plain parts gives back the parts |
| Paths.SplitIs | internal/utils/utils.go:495-506 | cutting a string gives the only list of plain parts that joins to it |
| Paths.JoinInjective | internal/utils/utils.go:497-500 | plain path names are unambiguous |
| Paths.TailOfCascade | internal/utils/utils.go:503-506 | the tail is the stage name exactly when that contains no arrow, whatever the parents |
| Paths.RawPrefix | scheduler/denormalize.go:24-26 | when one path name is a raw string prefix of one a part longer |
| Paths.PartsOfPrefix | scheduler/denormalize.go:24-26 | a name with a prefix has at least as many parts, so the slice is never out of range |
| Unfolding.DeepWellBuiltUnfolds | scheduler/denormalize.go:150-178 | collapsing pass-through pipelines keeps every pipeline of the tree well built |
| TableEntries.EntriesOfNode | scheduler/denormalize.go:72-97 | the entries below a node are its own, those of its pipeline and those of its children |
| Denormalizing.Denormalizer.GraphClone | scheduler/denormalize.go:150-178 | a pipeline whose only stage runs a pipeline is skipped; its stage is renamed, moved and given the user's variables for all later users, and the clone gets what it holds then |
| Denormalizing.Denormalizer.CloneTwice | scheduler/denormalize.go:150-178 | two stages that run one skipped pipeline, cloned one after the other: the second gets every variable of the first that it does not set |
| CallTrees.CanSeeExactly | scheduler/denormalize.go:74-96 | which write can be the last before the last of some visits, over all orders in which the calls of a recursion can be made, as the tree of calls says |
| FlattenRuns.AllAreVisited | scheduler/denormalize.go:61 | flattening from the root node visits every stage of the tree |
| FlattenRuns.StartIsDefined | scheduler/denormalize.go:165-173 | the clone of a stage that skips a pipeline starts as defined in every run exactly if every use that can be the last to write a key before it, which the stage does not set, leaves what the stage has anyway |
| FlattenRuns.StartsAreDefined | scheduler/denormalize.go:165-173 | the same for all clones of a tree |
| FlattenRuns.AgreeingUsesDoNotShow | scheduler/denormalize.go:165-173 | it is enough that no other use in the tree sets such a key in another way |
| SharedInputs.SideBySideIsAccepted | internal/config/pipeline.go:21-116 | a config of two stages that run the same pass-through pipeline, each with a variable, is accepted |
| SharedInputs.SecondSeesFirst | scheduler/denormalize.go:165-173 | in some run of flattening it the second stage starts with the variable of the first, which its definition does not give it |
| SharedInputs.TaskOfSecondSeesFirst | scheduler/denormalize.go:117-138 | and in every result of that run so does the task below it |
| SharedInputs.OneAfterTheOtherIsAccepted | internal/config/pipeline.go:21-116 | a config in which the stage with the variable depends on the one without is accepted |
| SharedInputs.FirstIsDefined | scheduler/denormalize.go:74-96 | there all clones start as defined in every run, though the uses do not agree |
| SharedPipelines.RewrittenIsLost | scheduler/denormalize.go:165-166 | the skipped stage is found under its new name in its own pipeline only if that is its old name |
| Denormalizing.SkippedIsNotFound | scheduler/denormalize.go:93-96 | flattening a pipeline that was skipped before looks its stage up under the name of the stage it was skipped for |
| SharedPipelines.NothingSkipped | scheduler/denormalize.go:156 | a tree without pass-through pipelines shares nothing and needs no description |
| Denormalizing.Denormalizer.FromStage | scheduler/stage.go:70-118 | the clone of a stage with its names cascaded and the graph's environment merged in |
| Denormalizing.Denormalizer.Flatten | scheduler/denormalize.go:72-97 | ends, and writes over the table exactly the clones of all stages reached from a node, on all levels; the visits are a run of the tree of calls, and each clone has the environment that this run gives it |
| Denormalizing.Denormalizer.FlattenNode | scheduler/denormalize.go:74-91 | one clone and those of the pipeline below it |
| Denormalizing.Denormalizer.FlattenPipeline | scheduler/denormalize.go:86-88 | the same from every node of a nested pipeline, in any order |
| Denormalizing.Denormalizer.FlattenChildren | scheduler/denormalize.go:93-96 | the same from every child, diamonds visited again |
| TableUpdates.TableIsKeyed | scheduler/denormalize.go:61 | the flattened table's keys are exactly the path names of the tree, each the name of its stage |
| TableUpdates.TableIsFresh | scheduler/denormalize.go:79 | with plain names no clone overwrites another, so each path holds its clone with the environment it started with |
| Denormalizing.Denormalizer.NthLevelChildren | scheduler/denormalize.go:20-32 | each entry with the prefix and depth once, and no other |
| Lookups.LookupIsExact | scheduler/denormalize.go:20-32 | in a tidy tree a lookup finds the stages of its pipeline and no other |
| Lookups.NeighboursClash | scheduler/denormalize.go:24 | exactly when a lookup also finds the stages of a neighbour |
| Lookups.LookupsNeedTidiness | scheduler/denormalize.go:20-32 | with plain names all lookups in a tree are exact if and only if no neighbours clash |
| Denormalizing.Denormalizer.RecurseParents | scheduler/denormalize.go:36-47 | the entries of all proper prefixes, outermost first |
| Lookups.EnclosingEnv | scheduler/denormalize.go:120-122 | the environments of the stages around a name merge as the pipelines nest |
| Denormalizing.Denormalizer.MergeParents | scheduler/denormalize.go:117-126 | the stage's environment overridden by those around it |
| Denormalizing.Denormalizer.MergeTask | scheduler/denormalize.go:129-139 | the task takes the stage's name and its own values override |
| Denormalizing.Denormalizer.RebuildNested | scheduler/denormalize.go:104-115 | the pipeline of a stage is rebuilt as specified and only entries below it change |
| Denormalizing.Denormalizer.RebuildStage | scheduler/denormalize.go:103-139 | one clone becomes a stage as specified |
| Denormalizing.Denormalizer.AddRebuilt | scheduler/denormalize.go:141-145 | the rebuilt stage is added and the addition is never refused |
| Denormalizing.Denormalizer.Rebuild | scheduler/denormalize.go:102-148 | ends without an error; the graph is the pipeline at its path, rebuilt, and no entry outside changed |
| Denormalizing.Denormalizer.Denormalize | scheduler/denormalize.go:57-67 | never an error; the result is the pipeline rebuilt on every level, from clones that start with what some run of flattening gives them after the uses so far, in a second call too |
| RebuiltPipelines.RenamedIsAcyclic | scheduler/denormalize.go:141-145 | renaming by path cannot create a cycle |
| DenormalTheorems.SameStages | scheduler/denormalize.go:49-56 | a level of the result has exactly the original stages, renamed |
| DenormalTheorems.SameSettings | scheduler/stage.go:70-115 | each set up as the original: the same condition and leave to fail, a task or a pipeline as that, and the same dependencies in the same order by their path names |
| DenormalTheorems.SameDependencies | scheduler/stage.go:111-115 | and exactly the original dependencies; stages without any hang off the root |
| DenormalTheorems.ResultIsWellBuilt | scheduler/stage.go:111-115 | a level can be scheduled if and only if no stage names the root node as a dependency |
| DenormalTheorems.ResultIsDeepWellBuilt | scheduler/denormalize.go:57-67 | the same for the whole tree |
| DenormalTheorems.FinishedGraphDenormalizes | internal/config/config.go:105-121 | a finite tree from an accepted config meets what denormalizing asks of its source; with names that can be looked up the whole result can be scheduled exactly if no stage names the root node |
| DenormalTheorems.AcceptedDefinitionsDenormalize | internal/config/pipeline.go:93-103 | for one level that was built and rebuilt, with plain names: which definitions give a graph that can be scheduled |
| DenormalTheorems.RootDependencyIsAccepted | internal/config/pipeline.go:93-103 | a definition with a dependency on the root node is accepted |
| DenormalTheorems.RootDependencyBreaks | scheduler/stage.go:111-115 | what is built from it never denormalizes to a graph that can be scheduled |
| DenormalTheorems.NeighboursAreAccepted | internal/config/pipeline.go:77-83 | two definitions named so that their pipelines clash are accepted |
| DenormalTheorems.AcceptedNeighboursClash | scheduler/denormalize.go:24 | and a lookup below the first finds the stages of the second |
| DenormalTheorems.RebuiltAt | scheduler/denormalize.go:104-115 | every nested pipeline is found in the result under its path names |
| DenormalTheorems.InnermostWins | scheduler/denormalize.go:34-47 | among enclosing pipeline stages the innermost whose clone started with a key wins |
| DenormalTheorems.TaskPrecedence | scheduler/denormalize.go:117-138 | for every key: the graph's value, else the task's, else that of the innermost enclosing pipeline stage whose clone started with one, else the stage's own; the merge before the run changes nothing |
| DenormalTheorems.PipelineStart | scheduler/denormalize.go:165-173 | where no other use shows, such a clone starts, for every key, with the value of its stage, else that of a skipped stage, else that of its pipeline |
| VariableStores.Variables.Merge | variables/variables.go:77-91 | a fresh store in which the second argument wins; neither argument changes, and the first may be nil |
| VariableStores.Variables.With | variables/variables.go:94-99 | a fresh store with one entry set |
| Workflows.CalledPathIs | scripts/check-workflow-policy/main.go:382-387 | a job calls a workflow of the repository exactly if it names its path, seen from here and without a version |
| Workflows.AlongChain | scripts/check-workflow-policy/main.go:343-358 | sets closed under calls grow along call chains |
| RootEvents.Resolver.PropagateRootEvents | scripts/check-workflow-policy/main.go:360-370 | the destination gains exactly the source's events; changed tells whether it gained any |
| RootEvents.Resolver.PropagateFrom | scripts/check-workflow-policy/main.go:345-356 | passing one caller's events on keeps every event justified by a call chain |
| RootEvents.Resolver.PropagateReusableEvents | scripts/check-workflow-policy/main.go:343-358 | a pass only grows the sets, and changes nothing only if they are closed under calls |
| RootEvents.Resolver.ResolveEffectiveRootEvents | scripts/check-workflow-policy/main.go:333-341 | ends, with an event at a workflow if and only if some workflow declares it and a chain of local calls leads there; so the events of a workflow are among those of every workflow one of its jobs names |
| RootEvents.ExactIsLeast | scripts/check-workflow-policy/main.go:333-341 | that result is the least solution |
| PrivilegedFlow.PushCanTargetDefaultBranch | scripts/check-workflow-policy/main.go:291-321 | the last matching branch pattern decides, or the ignore list, and a bad pattern counts as a match |
| PrivilegedFlow.EventWritesDefaultBranchCache | scripts/check-workflow-policy/main.go:277-289 | which events can write the cache, unknown ones included |
| PrivilegedFlow.PersistsIs | scripts/check-workflow-policy/main.go:405-411 | which runners outlive the run: all but a single one whose name begins with one of the three prefixes |
| PrivilegedFlow.ExecutesAfterUntrustedCheckout | scripts/check-workflow-policy/main.go:566-578 | some step uses the workspace after an earlier untrusted checkout |
| PrivilegedFlow.JobHasPrivilegedPRExecution | scripts/check-workflow-policy/main.go:562-587 | that, or an untrusted checkout by shell |
| PrivilegedFlow.AuthorityForJob | scripts/check-workflow-policy/main.go:389-403 | cache authority if and only if one of the events can write it, judged by its source workflow |
| PrivilegedFlow.ValidatePrivilegedFlow | scripts/check-workflow-policy/main.go:451-470 | accepted if and only if every job passes; a rejection names a job and a reason that applies |
| PrivilegedFlow.ValidateFlows | scripts/check-workflow-policy/main.go:102-107 | accepted if and only if every job is safe in terms of call chains |
| PrivilegedFlow.MoreWorkflowsStayUnsafe | scripts/check-workflow-policy/main.go:89-109 | adding workflows never turns a rejection into an acceptance |
| ImportLoader.MergeKind | internal/config/loader.go:360-370 | the union, or a name both have |
| ImportLoader.MergeExistingWithImported | internal/config/loader.go:358-402 | the base is extended by all three kinds, or a clash is reported |
| ImportLoader.Loader.Load | internal/config/loader.go:239-260 | the config is the union over exactly the newly visited sources, which lead only to visited ones |
| ImportLoader.Loader.LoadAndMerge | internal/config/loader.go:341-347 | an unvisited source is loaded once and merged |
| ImportLoader.Loader.LoadOnce | internal/config/loader.go:270-285 | a visited source is skipped |
| ImportLoader.Loader.LoadDir | internal/config/loader.go:404-427 | every config file of a directory is visited afterwards |
| ImportLoader.Loader.ParseImport | internal/config/loader.go:267-348 | one import, remote, directory or file |
| ImportLoader.Loader.ParseImports | internal/config/loader.go:265-351 | ends on cyclic imports too; all imports are visited and merged |
| ImportLoader.Loader.LoadAll | internal/config/loader.go:82-111 | succeeds if and only if every reachable source can be fetched and no two define the same name; then the config is their union, and exactly they were visited: the first one and whatever the imports of visited ones name, every config file of a named directory included |
| ImportGraph.ImportEdges | internal/config/loader.go:267-348 | a source leads to what its imports bring in: the source they name, or each config file of the directory they name |
| ImportGraph.OverlapIsClash | internal/config/loader.go:364-366 | a reported clash comes from two different sources |
| ImportGraph.OrderDoesNotMatter | internal/config/loader.go:267 | whether a config can be loaded does not depend on the order of imports |
| TreeValidation.ClassifyTreeEntry | scripts/materialize-sonar-source/main.go:338-357 | rejects unsafe, repeated or unusual entries, selects plain Go files |
| TreeValidation.ValidateTree | scripts/materialize-sonar-source/main.go:307-336 | accepted if and only if acceptable; then the tree is within the limits, and the result is the list of all its plain Go sources in path order and the sum of their sizes |
| TreeValidation.AcceptableIs | scripts/materialize-sonar-source/main.go:307-371 | the acceptable trees, said of the entries and limits alone |
| TreeValidation.LessIs | scripts/materialize-sonar-source/main.go:334 | the order of paths: at the first difference the one that ends there or has the smaller character comes first |
| TreeValidation.SelectionIsBounded | scripts/materialize-sonar-source/main.go:359-371 | the selection is exactly the plain Go sources, within all bounds |
| TreeValidation.OrderDoesNotMatter | scripts/materialize-sonar-source/main.go:307-336 | permuting the entries changes neither verdict nor result |
| TreeValidation.SortSorts | scripts/materialize-sonar-source/main.go:334 | sorting keeps all files and orders them strictly |
| TreeValidation.AscendingIsUnique | scripts/materialize-sonar-source/main.go:334 | the sorted list is determined by its members |
| Materializing.SegmentsAre | scripts/materialize-sonar-source/main.go:442-448 | the parts of a path are the only names without a slash that joined by slashes in order give the path |
| Materializing.EnsureParentDirectories | scripts/materialize-sonar-source/main.go:442-465 | all directories of a file exist afterwards, and nothing else was added; it fails only if an operation does or a file is in the way |
| Materializing.CreateFile | scripts/materialize-sonar-source/main.go:423-439 | a new file with all its content, or a change at its path only |
| Materializing.WriteExclusive | scripts/materialize-sonar-source/main.go:419-440 | one more file in the copy; nothing is overwritten |
| Materializing.FetchBlob | scripts/materialize-sonar-source/main.go:396-417 | what is used has the size and identity of its entry; it fails only if the request does or there is no such content |
| Materializing.MaterializeSelectedFiles | scripts/materialize-sonar-source/main.go:294-305 | all selected files, or a failure with changes only below the root |
| Materializing.Materialize | scripts/materialize-sonar-source/main.go:238-263 | all or nothing, under any failing step: on success the new root holds each selected file at its path with its content, their directories and nothing else; if no step fails it succeeds unless the tree is not acceptable, the root exists, a content is missing or has another size, or one selected path leads through another |
| Base62.RoundTrip | internal/utils/utils.go:479-493 | decoding an encoded string gives it back exactly if it does not begin with a zero byte |
| Base62.DecodeOfEncode | internal/utils/utils.go:511-524 | in general, the string without its leading zero bytes |
| Base62.EncodeCollides | internal/utils/utils.go:511-515 | two strings have the same encoding exactly if they differ in leading zero bytes only |
| Base62.MagnitudeOfText | internal/utils/utils.go:517-524 | the text of a number is read back as that number |
| Base62.TextOfDigit | internal/utils/utils.go:511-515 | a number below 62 is one character of the alphabet: digits, then lower case, then upper case |
| Base62.TextGrows | internal/utils/utils.go:511-515 | a larger number has the character of its lowest digit last |
| Base62.EncodeGrows | internal/utils/utils.go:511-515 | one more byte multiplies the encoded number by 256 and is added to it |
| ConfigCache.LiesInCache | internal/config/cache.go:141-144 | every file of the cache lies in the cache directory itself, under a name of letters and digits, whatever the source |
| ConfigCache.PathsDiffer | internal/config/cache.go:141-144 | different sources have different cache files, up to leading zero bytes |
| ConfigCache.Cache.Store | internal/config/cache.go:77-89 | writes the content at the source's path and nowhere else, unless an operation fails |
| ConfigCache.Cache.Get | internal/config/cache.go:92-102 | what is stored at the source's path, or that there is nothing, unless an operation fails |
| ConfigCache.StoreKeepsMap | internal/config/cache.go:77-89 | a store, successful or not, keeps the file of every other source and that of its own as the last store left it |
| ConfigCache.StoreAndGet | internal/config/cache.go:77-126 | after any stores, a lookup that does not fail gives what was stored last for the source if that store succeeded, and nothing if nothing was stored for it; what it gives is never anything else |
| ConfigCache.ZeroByteCollides | internal/config/cache.go:141-144 | two sources that share a cache file |

## Left out

- Sharing of graphs other than pass-through pipelines: nested graphs are values inside their stages, so a
  pipeline used by several stages appears once per use.  Stages and tasks are values too; the graph, the table,
  the marks, the status board, the event sets, the loader and the file system are classes updated in place.
- Denormalizing.Denormalizer.Denormalize: requires plain names and no clashing neighbours, because the name
  check does not enforce them; that the source is a finite tree; and that a pipeline that is skipped in one
  place is not flattened in another.  `Lookups.LookupsNeedTidiness`, `PipelineLibraries.FiniteExactly` and
  `Denormalizing.SkippedIsNotFound` say what these conditions are for.
- Denormalizing.Denormalizer.Flatten: requires that no pipeline of the tree is skipped in one place and
  flattened in another; the program ends with a nil dereference when it looks up a name it has changed.
- Denormalizing.Denormalizer.FlattenNode: the same trees as Flatten.
- Denormalizing.Denormalizer.FlattenPipeline: the same trees as Flatten.
- Denormalizing.Denormalizer.FlattenChildren: the same trees as Flatten.
- Denormalizing.Denormalizer.GraphClone: variables and env files, which it also writes to the shared stage, are
  left out.
- Denormalizing.Denormalizer.FromStage: env files, variables, aliases, the working directory and the generator
  fields are left out, and so is the graph that is set up for a nested pipeline and replaced at once.
- Denormalizing.Denormalizer.MergeParents: merges environments only, not variables and env files.
- Denormalizing.Denormalizer.MergeTask: merges environments only, not variables and env files.
- Denormalizing.Denormalizer.RebuildStage: merges environments only, not variables and env files.
- ExecutionGraphs.ExecutionGraph.constructor: takes no initial stages; no caller passes any outside tests of
  the package, and adding them is a sequence of calls of AddStage.
- StatusBoards.Board.CheckStatus: no worker stores a status between its reads; the step relation has these
  interleavings, and CheckAgrees ties the two where nothing comes between.
- StatusBoards.Board.ReadParents: as CheckStatus.
- StatusBoards.Board.IsDone: as CheckStatus, tied by DoneAgrees.
- PipelineConfig.BuildPipeline: the configured pipelines are given as values; PipelineLibraries relates them to
  pipelines that run each other by name.  A working directory on a stage without a task is not modelled.
- ScheduleBounds.RunsEnd: that a step that is possible is taken at some time is assumed, and that tasks and
  conditions come to an end; fairness itself is not modelled.
- ImportLoader.Loader.LoadAll: does not model that a local config is loaded with the sources of a global
  config already visited, nor file imports with a destination.
- ImportLoader.Loader.ParseImport: an import is a resolved source; resolving relative paths and file imports
  with a destination are left out.
- ImportLoader.MergeExistingWithImported: says nothing of the base after a clash, which nobody reads, and the
  source-file annotations are left out.
- PrivilegedFlow.ValidateFlows: the per-workflow checks before it are left out, and whether a step checks out
  untrusted code, uses the workspace, or a job has privileges is a flag of the model.
- PrivilegedFlow.ExecutesAfterUntrustedCheckout: reads flags of steps where the checker reads strings.
- PrivilegedFlow.JobHasPrivilegedPRExecution: reads flags of steps where the checker reads strings.
- PrivilegedFlow.AuthorityForJob: privilege is a flag of the job, and the authority for protected
  default-branch sources, which only a fixture helper reads, is left out.
- TreeValidation.ClassifyTreeEntry: whether a path is safe and an identity well formed are flags of the entry.
- Materializing.FetchBlob: hashing and decoding are replaced by a table of contents by identity.
- Materializing.Materialize: assumes that removing the new root succeeds; the program ignores that error.
  The final check of the pull request is an answer from outside, and a bad one counts as a step that fails.
- ConfigCache.Cache.Get: decoding the content and copying a file import are left out; when opening the file
  fails for another reason than that it is missing, nothing is promised of how this is told, because such an
  error is told as a missing entry too if it carries a path.
- ConfigCache.Cache.Store: a file system that tells upper from lower case is assumed.
- The result of a condition and of a task is an arbitrary outcome; the runner's own cancelling is not modelled.
- Wall-clock times, the pause between sweeps and log output; a status store that only the storing thread can
  make is taken in one step with the load that decided it.
- What a cancelled run achieves: only safety and that it can return are stated for it, because nested runs stop
  early and their stages can still become done.
- `StageList.Less` and the ordering in the CI generator: the comparison is not a strict weak order.
- The check of pinned topology in the policy script: conjunctions of comparisons.
- Executors, containers, terminal output, the command line, decoding of YAML and JSON, HTTP and Git.
