# Cairness, modelled and proved in Dafny

Cairness is a workflow harness: it plans tasks into parallel waves, runs a wave and refuses to
close it early, compares declared file scopes, orders open changes, drives loop sessions, and
upgrades or removes itself in a project. This project models the algorithms behind these and
proves what they promise, on all inputs, all reachable states and all runs. It stands alone:
`dafny verify dfyconfig.toml` checks everything.

| file | what it models |
|---|---|
| `Ids`, `Numbers`, `Options`, `Text`, `Graphs` | Python's `sorted`, `split`, `join`, `strip`; walks, cycles, reachability and longest walks in finite graphs |
| `WaveTasks`, `WaveCycle`, `WaveKahn`, `WaveLayers`, `WavePlan`, `WavePlanTheorems`, `WaveOrder` | the wave scheduler |
| `WaveLedger`, `WaveExecution`, `WaveInvariant`, `WaveTheorems`, `WaveOutcomes`, `WaveProgress`, `WaveReach`, `WaveOvershoot`, `WaveSummary`, `WaveEndings` | the ledger of a running wave, its execution as a transition system, the join gate, the summary and its validator |
| `Globs`, `NameMeets`, `Scopes`, `ScopeOverlap`, `ScopeParsing`, `ScopeMeets`, `OverlapTheorems` | declared scopes: matching, overlap, and when the overlap test is right |
| `Braces`, `BraceTrees` | brace expansion |
| `ChangeGraph`, `ChangeCycles`, `ChangeOrder`, `ChangeAgreement`, `ChangeConflicts` | the change dependency graph, its two traversals, and write conflicts |
| `LoopSession`, `LoopHistory`, `LoopRouting`, `LoopRuntime` | loop sessions |
| `Upgrade`, `UpgradeTheorems` | replacing the installed framework, and the report made beforehand |
| `Uninstall`, `UninstallTransaction`, `UninstallTheorems` | the uninstall transaction |
| `Percentile` | the interpolated percentile of the benchmark report |

Functions that are expressions in the source are functions here; loops over variables are methods
with invariants; `WaveLedger`, `CycleFinder`, `CycleCollector`, `LoopRuntime`, `Installation` and
`Project` are classes because the source updates their state in place. A wave under execution is a
transition system whose steps are the separate atomic actions of workers and of the main thread.

## Where the code does less than its documentation says

Each of these is proved, with the exact condition under which the promise does hold.

- `scopes_overlap` says that True means a provable common path. Two equal scopes are reported even
  when no legal path can match them, such as `[.]` with itself (`EqualUnnamableScopes`). A reported
  overlap is real exactly when every ordinary segment of both scopes can match some legal name
  (`ReportedOverlapIsRealIff`), which is decided segment by segment on its tokens
  (`NamableIffFillable`) and always holds for scopes without brackets (`BracketFreeOverlapIsReal`).
- It is not complete: `a/**` and `*/b` both match `a/b` and are not reported (`MissedOverlap`). A
  common path goes unreported exactly when the scopes differ, have a wildcard each, pass no prefix
  test, and their parts meet (`UnreportedIff`), which is decided on the parts and tokens
  (`CommonPathIffMeets`, `ShareNameIffTokensMeet`).
- The reported `actual_parallelism` can exceed `max_parallel`, because the ledger counts a task as
  running until its outcome is collected. It stays within the bound in every run exactly when the
  wave has no more tasks than the bound (`ReportFitsPoolIff`). It still bounds the true number of
  tasks inside `dispatch`, and the pool bounds that number too.
- A wave's own validator can refuse its summary. A returned run's summary is accepted exactly when
  the wave id is not blank, the run did not time out with nothing running at the join, and the
  planned parallelism is positive and lies between the reported parallelism and the task count
  (`ReturnedSummaryAcceptedIff`). Before the call: every returned run is accepted exactly when the id
  is not blank, the plan is the task count, and no timeout is set (`ReturnedSummariesAcceptedIff`).
  The ledger refuses only the empty id, so an id of spaces runs to the end first
  (`BlankWaveIdIsRefused`); an idle timeout keeps the cleanup status "required"
  (`IdleTimeoutIsRefused`).
- The upgrade report lists a file as dropped exactly if the swap loses it, if and only if the release
  ships every unprotected file that it shares with the old tree (`DroppedIsPredictedIff`); a file
  such as `x.pyc` that both trees hold is never copied and is lost unreported (`UnreportedLoss`).
- Its preserved list is right if and only if no protected file lies under an excluded root
  (`PreservedIsPredictedIff`, `FalsePreserve`), and its overwritten list if and only if no such
  unshipped file differs (`OverwrittenIsPredictedIff`, `FalseOverwrite`).
- On failure of a replacement the backup is to be restored. The installed tree is as it was exactly
  when the failure comes up to the rename of the old tree or while the release is copied, or there
  was no old tree, or enough old files were carried for the tree to equal the old one
  (`FailureKeepsTreeIff`). A failure to make the temporary directory leaves nothing installed
  (`TemporaryFailureUninstalls`), and one while old files are carried is not undone
  (`CarryFailureIsNotUndone`). The old tree is never lost (`OldTreeSurvives`).

## Model

| member | source | states |
|---|---|---|
| WaveCycle.DetectCycle | cairn-core/scripts/harness_runtime/wave_plan.py:71-99 | a non-empty result is a closed walk along `depends_on` between known tasks; an empty result means that no such cycle exists |
| WaveCycle.CycleFinder.Dfs | cairn-core/scripts/harness_runtime/wave_plan.py:77-93 | one search keeps the stack a walk and the black tasks closed and acyclic, blackens its node, and only turns white tasks darker; a result is a cycle |
| WaveCycle.CycleFinder.Follow | cairn-core/scripts/harness_runtime/wave_plan.py:80-90 | after a dependency is followed it is unknown or black, or a cycle has been found |
| WaveKahn.InvertDependencies | cairn-core/scripts/harness_runtime/wave_plan.py:110-114 | each task stands among the dependents of a known id as often as it lists that id |
| WaveKahn.LowerDependents | cairn-core/scripts/harness_runtime/wave_plan.py:125-126 | lowering the dependents of a peeled task leaves every counter at the number of entries of its `depends_on` not yet peeled, repeats counted |
| WaveKahn.PeelLayer | cairn-core/scripts/harness_runtime/wave_plan.py:123-126 | peeling a layer removes exactly its tasks and keeps that meaning of the counters |
| WaveKahn.LayeredKahn | cairn-core/scripts/harness_runtime/wave_plan.py:102-128 | the counters compute repeated peeling of the tasks whose dependencies are all peeled, layers and remainder sorted |
| WaveLayers.PeelPartitions | cairn-core/scripts/harness_runtime/wave_plan.py:116-128 | every task is in exactly one layer or unscheduled, never both, and no layer is empty |
| WaveLayers.UnscheduledIffDoomed | cairn-core/scripts/harness_runtime/wave_plan.py:105-108 | the unscheduled tasks are exactly those that reach a cycle or an unknown id through `depends_on` |
| WaveLayers.LayerIffDepth | cairn-core/scripts/harness_runtime/wave_plan.py:116-126 | a task is in layer k if and only if it is schedulable and its longest `depends_on` chain has k edges |
| WaveLayers.LayersAreFewest | cairn-core/scripts/harness_runtime/wave_plan.py:102-128 | every layering that respects the dependencies puts each task at least as high as its layer |
| WaveLayers.LayerCountIsLongestChain | cairn-core/scripts/harness_runtime/wave_plan.py:102-128 | the number of layers is the number of tasks on the longest chain |
| WaveLayers.AllScheduledIff | cairn-core/scripts/harness_runtime/wave_plan.py:49-56 | everything is scheduled if and only if there is no cycle and no dangling dependency |
| WavePlan.DetectOverlapIn | cairn-core/scripts/harness_runtime/wave_plan.py:131-150 | within one layer: no result means that no two parallel-safe tasks write one file; a result names two tasks in layer order and a file both write |
| WavePlan.DetectLayerOverlap | cairn-core/scripts/harness_runtime/wave_plan.py:131-150 | the same over all layers |
| WavePlan.MakeWave | cairn-core/scripts/harness_runtime/wave_plan.py:171-183 | the wave holds the given tasks, each with its sorted files |
| WavePlan.MakeChunkWaves | cairn-core/scripts/harness_runtime/wave_plan.py:162-167 | the stepping loop cuts the parallel group into consecutive chunks |
| WavePlan.SplitLayerIntoWaves | cairn-core/scripts/harness_runtime/wave_plan.py:153-168 | the loops compute the waves of one layer, whose contents and order the theorems on valid plans fix |
| WavePlan.PlanAcyclic | cairn-core/scripts/harness_runtime/wave_plan.py:49-68 | after the cycle check: valid if and only if schedulable; otherwise the one issue explains why |
| WavePlan.PlanWaves | cairn-core/scripts/harness_runtime/wave_plan.py:23-68 | valid if and only if `max_parallel >= 1`, ids are unique, the graph is acyclic, no dependency dangles, and no two parallel-safe tasks of equal depth share a file; otherwise no waves and exactly one issue, which is true of the tasks and belongs to the first failing check |
| WavePlanTheorems.ChunksGood | cairn-core/scripts/harness_runtime/wave_plan.py:162-167 | chunks lose and repeat nothing, hold 1 to `max_parallel` tasks with disjoint files, and number ceil(group / max_parallel) |
| WavePlanTheorems.CeilDivIsCeiling | cairn-core/scripts/harness_runtime/wave_plan.py:162-167 | that count is the least number of chunks that hold the group |
| WavePlanTheorems.LayerWavesGood | cairn-core/scripts/harness_runtime/wave_plan.py:153-168 | a layer's waves are all good and number solo + ceil(group / max_parallel); their order is stated by `PlanOrderIff` |
| WavePlanTheorems.AllWavesSound | cairn-core/scripts/harness_runtime/wave_plan.py:58-68 | over all layers: a partition of their tasks, every dependency in a strictly earlier wave, and the total count |
| WavePlanTheorems.ValidPlanIsSound | cairn-core/scripts/harness_runtime/wave_plan.py:58-68 | the waves of a valid plan are an ordered partition of the tasks, numbered from 1, each of 1 to `max_parallel` tasks with pairwise disjoint files, unsafe tasks alone, dependencies strictly earlier, with the wave count in closed form |
| WaveOrder.PlanOrderIff | cairn-core/scripts/harness_runtime/wave_plan.py:116-168 | of any two tasks of a valid plan one runs before the other if and only if it has less depth, or equal depth and must run alone while the other need not, or is alike in both and has the smaller id |
| Ids.LeIff | cairn-core/scripts/harness_runtime/wave_plan.py:119-119 | ids are compared as Python compares texts: a prefix first, otherwise by the first different code point |
| WaveOrder.WavesAreFull | cairn-core/scripts/harness_runtime/wave_plan.py:162-167 | a wave of parallel-safe tasks that a later wave of the same depth follows holds exactly `max_parallel` tasks |
| WavePlanTheorems.PermutedUniqueIds | cairn-core/scripts/harness_runtime/wave_plan.py:36-43 | a permuted task list passes the duplicate check exactly like the original |
| WavePlanTheorems.PermutedById | cairn-core/scripts/harness_runtime/wave_plan.py:36-36 | a permuted task list gives the same dictionary |
| WavePlanTheorems.PlanIgnoresTaskOrder | cairn-core/scripts/harness_runtime/wave_plan.py:23-68 | any permutation of the task list has the same verdict and the same waves |
| WaveLedgers.WaveLedger.Create | cairn-core/scripts/harness_runtime/wave_execution.py:51-56 | a ledger is made exactly for a non-empty wave id and non-empty unique task ids, all entries pending; otherwise the matching error |
| WaveLedgers.WaveLedger.Start | cairn-core/scripts/harness_runtime/wave_execution.py:74-82 | only a pending task starts; the count, the peak and one entry move, nothing else; a refusal changes nothing and says why |
| WaveLedgers.WaveLedger.Finish | cairn-core/scripts/harness_runtime/wave_execution.py:84-95 | only a terminal status on a pending or running task is accepted; the count falls only if it was running; a refusal changes nothing and says why |
| WaveLedgers.WaveLedger.CleanupPending | cairn-core/scripts/harness_runtime/wave_execution.py:97-101 | closes exactly the pending entries and leaves all others, the count and the peak alone |
| WaveLedgers.StartKeepsConsistent | cairn-core/scripts/harness_runtime/wave_execution.py:74-82 | a start keeps the running count equal to the number of running entries and at most the peak, the peak at most the number of tasks |
| WaveLedgers.FinishKeepsConsistent | cairn-core/scripts/harness_runtime/wave_execution.py:84-95 | so does a finish, from pending or from running |
| WaveInvariant.InitInv | cairn-core/scripts/harness_runtime/wave_execution.py:191-202 | a wave about to submit its tasks satisfies the invariant |
| WaveInvariant.StepInv | cairn-core/scripts/harness_runtime/wave_execution.py:195-236 | every atomic step of any worker or of the main thread, timeout, cancel and cleanup included, keeps the invariant that ties futures, ledger entries and the main thread's position together |
| WaveTheorems.ExecutionInv | cairn-core/scripts/harness_runtime/wave_execution.py:195-236 | the invariant holds in every state of every run |
| WaveTheorems.PeakOverRun | cairn-core/scripts/harness_runtime/wave_execution.py:74-82 | `_max_active` is attained by, and bounds, the number of running entries over the whole history, and is at most the task count |
| WaveTheorems.TerminalForever | cairn-core/scripts/harness_runtime/wave_execution.py:84-95 | a terminal entry never changes again |
| WaveTheorems.DispatchedAtMostOnce | cairn-core/scripts/harness_runtime/wave_execution.py:197-218 | no task is dispatched twice, and a task closed while pending is not dispatched then or later |
| WaveTheorems.DispatchFitsPool | cairn-core/scripts/harness_runtime/wave_execution.py:194-199 | at most min(max_parallel, n) tasks are inside `dispatch`; without a timeout each of them is running in the ledger |
| WaveTheorems.ReportedParallelismBoundsPeak | cairn-core/scripts/harness_runtime/wave_execution.py:194-211 | without a timeout the reported parallelism is at least the true concurrency at every moment and at most n |
| WaveTheorems.CleanRunRecordsOutcomes | cairn-core/scripts/harness_runtime/wave_execution.py:203-236 | a closed wave without a timeout never raised `WaveJoinError`, needed no cleanup, and dispatched every task once to its end |
| WaveOutcomes.CleanRunReports | cairn-core/scripts/harness_runtime/wave_execution.py:157-169 | such a wave reports every task and no other: failed with the exception's kind and message if its dispatch raised; completed, timed out, cancelled or failed as the returned text spells it in any letter case, completed if there was none, failed with an error if the text is unknown; the worker's own error otherwise |
| WaveTheorems.EntryWriters | cairn-core/scripts/harness_runtime/wave_execution.py:74-95 | an entry changes only when a worker starts its pending task, its own outcome is collected, the timeout loop closes it as timed out, or the cleanup returned a status for it |
| WaveTheorems.CleanupIsWritten | cairn-core/scripts/harness_runtime/wave_execution.py:223-228 | a terminal status that the cleanup returned for a running orphan is written as it is |
| WaveOutcomes.CleanRunPassesIff | cairn-core/scripts/harness_runtime/wave_execution.py:237-241 | such a wave reports "passed" if and only if every dispatch returned, and gave no status text or one that spells completed, done, passed or success in any letter case |
| WaveTheorems.ReturnedIsFinal | cairn-core/scripts/harness_runtime/wave_execution.py:231-252 | after a result is returned no task can start or finish any more, whatever stray workers still do |
| WaveProgress.StepShrinksMeasure | cairn-core/scripts/harness_runtime/wave_execution.py:195-236 | every step uses up work |
| WaveProgress.RunsAreBounded | cairn-core/scripts/harness_runtime/wave_execution.py:195-236 | no run of a wave of n tasks takes more than 10n + 18 steps |
| WaveProgress.RunsUntilClosed | cairn-core/scripts/harness_runtime/wave_execution.py:195-236 | every run that has not closed can be carried on: no reachable state before the close is stuck |
| WaveInvariant.MainFinishesAreAccepted | cairn-core/scripts/harness_runtime/wave_execution.py:203-231 | in every reachable state the ledger accepts whatever `finish` the main thread comes to make, for a collected outcome, for a timed-out task and for an orphan |
| WaveOvershoot.ReportFitsPoolIff | cairn-core/scripts/harness_runtime/wave_execution.py:74-95 | every run of a wave reports at most `max_parallel` if and only if the wave has at most that many tasks |
| WaveOvershoot.AllTasksCanCount | cairn-core/scripts/harness_runtime/wave_execution.py:74-95 | whatever the number of workers, some run reports all tasks as running at once |
| WaveOvershoot.ReportedParallelismCanExceedPool | cairn-core/scripts/harness_runtime/wave_execution.py:74-95 | two tasks on one worker with a reported peak of two, as a case of it |
| WaveSummary.ValidateExecutionSummary | cairn-core/scripts/harness_runtime/wave_execution.py:255-304 | an error is reported if and only if the summary has the fault it names, and none is reported if and only if texts, times and counts are well-formed, actual is at most planned and planned at most tasks, there is one terminal status per task, and the cleanup is finished; `True` counts as 1 where Python lets it |
| WaveSummary.BooleansCount | cairn-core/scripts/harness_runtime/wave_execution.py:274-289 | a boolean counts as 0 or 1 in the comparisons and never as a well-formed count |
| WaveSummary.SummaryTells | cairn-core/scripts/harness_runtime/wave_execution.py:141-154 | the summary gives the wave id, the start, the end, the counts and for every task a text that reads back as its status |
| Text.BlankIff | cairn-core/scripts/harness_runtime/wave_execution.py:262-265 | a text is blank if and only if stripping leaves nothing of it |
| WaveSummary.CleanSummaryAccepted | cairn-core/scripts/harness_runtime/wave_execution.py:141-154 | the summary of a run without a timeout, planned parallelism n, is accepted if and only if the wave id is not blank |
| WaveEndings.ReturnedCleanupIff | cairn-core/scripts/harness_runtime/wave_execution.py:212-236 | a returned wave has cleanup status "not_required" or "passed" if and only if it did not time out or had a task running at the join |
| WaveEndings.ReturnedSummaryAcceptedIff | cairn-core/scripts/harness_runtime/wave_execution.py:141-154 | for any planned parallelism, the summary of a returned run is accepted if and only if the wave id is not blank, the run did not time out or had a task running at the join, and the plan is positive and lies between the reported parallelism and the task count |
| WaveEndings.CleanSummariesAcceptedIff | cairn-core/scripts/harness_runtime/wave_execution.py:141-154 | every run of a wave that does not time out has an accepted summary if and only if the wave id is not blank and the planned parallelism is the task count |
| WaveEndings.ReturnedSummariesAcceptedIff | cairn-core/scripts/harness_runtime/wave_execution.py:141-154 | every returned run of a wave has an accepted summary if and only if, besides, no timeout is set |
| WaveEndings.BlankWaveIdIsRefused | cairn-core/scripts/harness_runtime/wave_execution.py:51-56 | every wave named by one space passes the ledger's checks, can run to a clean end, and is then refused; under another name the same run is accepted |
| WaveEndings.IdleTimeoutIsRefused | cairn-core/scripts/harness_runtime/wave_execution.py:212-218 | every wave with a timeout has a run that times out before any worker starts, returns, and has its summary refused whatever was planned |
| Globs.LiteralMatch | cairn-core/scripts/change_docs.py:275-277 | a segment without `*`, `?` or `[` matches itself and nothing else |
| Globs.StarTakesAny | cairn-core/scripts/change_docs.py:275-277 | a star stands for any text inside one segment |
| Globs.LetterTakesItself | cairn-core/scripts/change_docs.py:275-277 | an ordinary character at the front of a pattern takes itself |
| Globs.QuestionTakesOne | cairn-core/scripts/change_docs.py:275-277 | a question mark takes exactly one character |
| Globs.StarTakesText | cairn-core/scripts/change_docs.py:275-277 | a star takes any text |
| Globs.BracketTakesOne | cairn-core/scripts/change_docs.py:275-277 | a closed bracket takes one character of its set, also where the set starts with a closing bracket |
| Globs.OpenBracketTakesItself | cairn-core/scripts/change_docs.py:275-277 | a bracket that is never closed takes itself |
| Globs.NamableIffFillable | cairn-core/scripts/change_docs.py:244-260 | a segment matches some legal path name if and only if each of its tokens accepts a legal character and not all fillings are `.` or `..` |
| Globs.BracketFreeIsNamable | cairn-core/scripts/change_docs.py:244-260 | a legal segment without brackets always matches some legal name |
| Scopes.MatchFromIffDenotes | cairn-core/scripts/change_docs.py:263-279 | the index-pair recursion from any pair accepts exactly the denotation of the remaining scope on the remaining path |
| Scopes.MatchIffDenotes | cairn-core/scripts/change_docs.py:263-279 | a path matches if and only if it splits into consecutive pieces, one matching segment per ordinary part and any number of segments per recursive part |
| Scopes.PrefixScopeCoversPrefixes | cairn-core/scripts/change_docs.py:282-294 | a concrete prefix and a recursive part match exactly the paths with that prefix |
| Scopes.BothSpellingsRecurse | cairn-core/scripts/change_docs.py:241-274 | after a concrete prefix both `**` and `...` cover all that starts with it |
| Scopes.OrdinaryTakesOne | cairn-core/scripts/change_docs.py:275-279 | any other part takes exactly one segment |
| Scopes.ConcreteScopeCoversItself | cairn-core/scripts/change_docs.py:282-301 | a concrete scope matches exactly the path it spells |
| Scopes.AdjacentRecursivesCollapse | cairn-core/scripts/change_docs.py:268-274 | two adjacent recursive parts mean what one means, anywhere in a scope and in either spelling |
| ScopeOverlap.DeclaredPathParts | cairn-core/scripts/change_docs.py:244-260 | the prefix-stripping loop computes the parse that `DeclaredIff` characterises on the text |
| ScopeParsing.DeclaredIff | cairn-core/scripts/change_docs.py:244-260 | a text parses if and only if it is legal segments joined by slashes with any number of `./` in front and of `/` behind; the parts are those segments, with `**` added exactly if there is a slash behind or a directory is asked for |
| ScopeParsing.UndeclaredIff | cairn-core/scripts/change_docs.py:244-260 | every other text, and no text of that form, declares nothing |
| ScopeParsing.DirectoryCoversBelow | cairn-core/scripts/change_docs.py:252-259 | a concrete directory with a trailing slash matches exactly the paths that start with it |
| ScopeOverlap.ParsedIsLegal | cairn-core/scripts/change_docs.py:244-260 | parsing never yields an empty list, an empty, `.` or `..` segment, or a slash, backslash or NUL inside one |
| ScopeOverlap.ParseJoin | cairn-core/scripts/change_docs.py:321-324 | rejoined legal parts parse back to themselves, so the concrete shortcuts compare what they mean to |
| ScopeOverlap.CommonPathIffParts | cairn-core/scripts/change_docs.py:282-294 | two scopes have a common path if and only if their denotations have a common legal segment list |
| OverlapTheorems.ReportedOverlapIsRealIff | cairn-core/scripts/change_docs.py:312-339 | a reported overlap has a common path if and only if every ordinary segment of both scopes can match a legal name |
| OverlapTheorems.BracketFreeOverlapIsReal | cairn-core/scripts/change_docs.py:312-339 | for scopes without brackets a reported overlap always has a common path |
| OverlapTheorems.RealOverlapIsReported | cairn-core/scripts/change_docs.py:312-339 | a common path is reported when one scope is concrete or both are a concrete prefix and a recursive part |
| ScopeMeets.CommonPartsIffMeets | cairn-core/scripts/change_docs.py:263-279 | two scopes have a path of legal segments in common if and only if a walk over both part lists succeeds, where a recursive part is skipped or takes in the other head and two ordinary heads share a legal name |
| NameMeets.ShareNameIffTokensMeet | cairn-core/scripts/change_docs.py:275-277 | two segments match a common legal name if and only if a walk over their tokens succeeds |
| OverlapTheorems.CommonPathIffMeets | cairn-core/scripts/change_docs.py:282-294 | two declared scopes have a path in common if and only if both parse and their parts meet |
| OverlapTheorems.UnreportedIff | cairn-core/scripts/change_docs.py:312-339 | a common path goes unreported if and only if both scopes parse, differ, have a wildcard each, pass no prefix test, and their parts meet |
| OverlapTheorems.OverlapIsSymmetric | cairn-core/scripts/change_docs.py:312-339 | the order of the two scopes does not matter |
| OverlapTheorems.EqualUnnamableScopes | cairn-core/scripts/change_docs.py:317-318 | `[.]` is reported to overlap itself although no path matches it |
| OverlapTheorems.MissedOverlap | cairn-core/scripts/change_docs.py:332-339 | `a/**` and `*/b` share `a/b` and are not reported |
| Braces.FindGroup | cairn-core/scripts/harness_runtime/deps.py:82-82 | what is found is a brace group with non-empty, brace-free contents |
| Braces.FindsLeftmost | cairn-core/scripts/harness_runtime/deps.py:82-82 | where there is a group the leftmost one is found, with its own closing brace |
| Braces.BlanksAreDropped | cairn-core/scripts/harness_runtime/deps.py:86-87 | blanks around an item do not count |
| Text.StripSplits | cairn-core/scripts/harness_runtime/deps.py:87-87 | stripping removes only blanks at the ends, and all of them |
| Text.SpaceIff | cairn-core/scripts/harness_runtime/deps.py:87-87 | what counts as a blank, one character at a time |
| Braces.ReplacementShrinks | cairn-core/scripts/harness_runtime/deps.py:86-88 | replacing a group by any of its items removes exactly one opening brace, so expansion ends |
| Braces.ExpandBraceScope | cairn-core/scripts/harness_runtime/deps.py:80-89 | the recursion over a growing set computes the expansion whose meaning is `ExpansionDenotes` |
| BraceTrees.Reduce | cairn-core/scripts/harness_runtime/deps.py:82-88 | every tree with a group has a first group to close, and replacing it item by item gives smaller trees with the same strings together |
| BraceTrees.CutIsFound | cairn-core/scripts/harness_runtime/deps.py:82-87 | on a printed tree the search finds just that group, its items and the printed replacements |
| BraceTrees.ExpansionDenotes | cairn-core/scripts/harness_runtime/deps.py:80-89 | expanding a printed tree of nested alternations and concatenations yields exactly the strings the tree denotes |
| ChangeGraph.BuildDependencyGraph | cairn-core/scripts/harness_runtime/deps.py:145-157 | the graph has an edge from d to c if and only if c declares d, and its nodes are the changes and everything they mention |
| ChangeCycles.CycleCollector.Visit | cairn-core/scripts/harness_runtime/deps.py:166-177 | a visit restores the recursion stack, only adds visited nodes and cycles, and keeps the finished nodes acyclic while no cycle is found |
| ChangeCycles.DetectCycles | cairn-core/scripts/harness_runtime/deps.py:160-181 | every reported cycle is a closed walk, and none is reported if and only if the graph is acyclic |
| ChangeOrder.InDegrees | cairn-core/scripts/harness_runtime/deps.py:189-194 | each counter is the number of edges into its node |
| ChangeOrder.LowerDependents | cairn-core/scripts/harness_runtime/deps.py:200-206 | after a node is finished every counter is the number of unfinished predecessors, and finished and queued changes are together exactly those that wait for nothing unfinished |
| ChangeOrder.TopologicalSort | cairn-core/scripts/harness_runtime/deps.py:184-208 | no repeats, only changes, each after everything it waits for, and no omitted change waits only for listed ones |
| ChangeAgreement.DependenciesComeFirst | cairn-core/scripts/harness_runtime/deps.py:184-208 | every declared dependency of a listed change stands earlier in the list |
| ChangeAgreement.OmittedIffDoomed | cairn-core/scripts/harness_runtime/deps.py:184-208 | the omitted changes are exactly those that reach a cycle or an unknown id |
| ChangeAgreement.SameCycles | cairn-core/scripts/harness_runtime/deps.py:145-181 | the graph that is searched has a cycle if and only if the declared dependencies have one, though its edges point the other way |
| ChangeAgreement.SortIsCompleteIffAcyclic | cairn-core/scripts/harness_runtime/deps.py:160-208 | with all dependencies known, every change is listed if and only if no cycle is reported |
| ChangeConflicts.DetectFileConflicts | cairn-core/scripts/harness_runtime/deps.py:211-266 | the loop reports, in order, the conflicts of the compared pairs; what that list contains is stated by the lemmas below |
| ChangeConflicts.CheckedPairs | cairn-core/scripts/harness_runtime/deps.py:217-233 | two changes are compared if and only if they are different and open, and one of them is the target if there is one |
| ChangeConflicts.ReportedIffConflicting | cairn-core/scripts/harness_runtime/deps.py:211-266 | two open changes are reported if and only if scopes of theirs overlap, whether all pairs are asked for or those of either one |
| ChangeConflicts.ReportedAreOpen | cairn-core/scripts/harness_runtime/deps.py:211-266 | everything reported is a conflict between two different open changes |
| ChangeConflicts.ConflictTells | cairn-core/scripts/harness_runtime/deps.py:238-264 | a conflict names its two changes, shows sorted just the overlapping scopes, and is a warning if and only if both changes are parallel-safe and one declares the other |
| ChangeConflicts.CheckedOnce | cairn-core/scripts/harness_runtime/deps.py:217-233 | no unordered pair is compared twice |
| ChangeConflicts.ReportedOnce | cairn-core/scripts/harness_runtime/deps.py:235-264 | so no conflict is reported twice, not even with its changes exchanged |
| ChangeConflicts.SimpleConflictIffSharePath | cairn-core/scripts/harness_runtime/deps.py:238-245 | changes whose scopes are concrete or a concrete prefix and a recursive part conflict if and only if some path lies in both |
| ChangeConflicts.LabelIsNarrower | cairn-core/scripts/change_docs.py:342-356 | a label that names one scope names one whose paths all lie in both scopes |
| ChangeConflicts.BothShownIff | cairn-core/scripts/change_docs.py:342-356 | both scopes are shown, in order, if and only if neither is concrete, not both end recursively, and they differ |
| LoopHistory.InitialIsSound | cairn-core/scripts/harness_runtime/loop_runtime.py:256-310 | a new session has a sound history |
| LoopRouting.StartIsRecorded | cairn-core/scripts/harness_runtime/loop_runtime.py:270-287 | a started session belongs to its change, begins with the given command at that time, and has no steps |
| LoopRouting.ContinueIff | cairn-core/scripts/harness_runtime/loop_runtime.py:364-408 | a session goes on to a command if and only if the step passed, its manifest declares that command for the condition, it is a command with a manifest that allows the same session, and the condition is no stop condition |
| LoopRouting.StopIff | cairn-core/scripts/harness_runtime/loop_runtime.py:375-393 | it stops, for each reason, if and only if the step did not pass, or has no continuation, or reports a stop condition, or reports none and no command is declared for a pass |
| LoopRouting.NoManifestIff | cairn-core/scripts/harness_runtime/loop_runtime.py:364-408 | a missing manifest is reported if and only if the command, or the command its manifest names next, has none |
| LoopRouting.UnknownConditionIff | cairn-core/scripts/harness_runtime/loop_runtime.py:379-387 | a condition is refused if and only if it is neither a stop condition nor one with a command |
| LoopRouting.InvalidCommandIff | cairn-core/scripts/harness_runtime/loop_runtime.py:384-391 | a next command is refused as invalid if and only if the manifest names one that is no command |
| LoopRouting.NotSameSessionIff | cairn-core/scripts/harness_runtime/loop_runtime.py:394-398 | it is refused for the session if and only if its manifest has a continuation that does not allow the same session |
| LoopRouting.NoOtherRefusal | cairn-core/scripts/harness_runtime/loop_runtime.py:364-408 | where a step leads is refused for no other reason than these four |
| LoopRouting.AcceptedIff | cairn-core/scripts/harness_runtime/loop_runtime.py:341-408 | a step of a loadable session is accepted if and only if the session is active and not paused, the command is the expected one, the status is known, and the manifests decide where it leads |
| LoopRouting.RefusalNamesFirst | cairn-core/scripts/harness_runtime/loop_runtime.py:350-363 | a refused step is told of the first check it fails, in the order status, command, pause, step status, manifests |
| LoopRouting.StepIsRecorded | cairn-core/scripts/harness_runtime/loop_runtime.py:366-430 | an accepted step adds one record with its command, status, condition, evidence, time, phase and outcome, and changes no earlier one |
| LoopRouting.PhaseIsNamed | cairn-core/scripts/harness_runtime/loop_runtime.py:24-43 | a command has one of the five phases of its own if and only if it is named for it; every other command belongs to apply |
| LoopRouting.ElapsedIsFloor | cairn-core/scripts/harness_runtime/loop_runtime.py:46-54 | a span is cut down to whole milliseconds and never negative |
| LoopRouting.DurationsAreCapped | cairn-core/scripts/harness_runtime/loop_runtime.py:100-121 | tool and verification time are recorded as reported, within 0 and the active time |
| LoopRouting.CommandIff | cairn-core/scripts/harness_runtime/loop_runtime.py:23-23 | what counts as a command name |
| LoopRouting.LowerOrDigitIff | cairn-core/scripts/harness_runtime/loop_runtime.py:22-23 | the letters and digits that names may have, one by one |
| LoopRouting.SessionIdIff | cairn-core/scripts/harness_runtime/loop_runtime.py:22-22 | what counts as a session id |
| LoopRouting.ChangeIdIff | cairn-core/scripts/harness_runtime/loop_runtime.py:264-265 | a change id is words of lower-case letters and digits joined by single hyphens |
| LoopHistory.DecisionIsDeclared | cairn-core/scripts/harness_runtime/loop_runtime.py:364-408 | a step carries on only if it passed, and only to the declared command for its condition, which must have a manifest that allows the same session; only a passed step completes |
| LoopHistory.StepKeepsSound | cairn-core/scripts/harness_runtime/loop_runtime.py:341-455 | an accepted step keeps the history a path of the continuation graph from the entry command, all steps but the last passed, each under the phase of its command, the session at the command the last step names, and a stop reason exactly when it has ended |
| LoopHistory.ReachableIsLoadable | cairn-core/scripts/harness_runtime/loop_runtime.py:313-338 | whatever is requested of a started session, accepted or refused, it loads afterwards; command drift is never reported |
| LoopHistory.EveryReachableIsSound | cairn-core/scripts/harness_runtime/loop_runtime.py:341-503 | any sequence of steps, pauses and resumes, accepted or refused, keeps the history sound |
| LoopHistory.HistoryIsAppendOnly | cairn-core/scripts/harness_runtime/loop_runtime.py:341-503 | recorded steps are never rewritten and nothing moves a stopped or completed session |
| LoopHistory.TimingAddsUp | cairn-core/scripts/harness_runtime/loop_runtime.py:100-121 | a recorded phase that was not blocked has elapsed = active + wait exactly, a blocked one active = 0 and blocked = elapsed, and tool and verification time are at most active |
| LoopHistory.PhaseTimesAddUp | cairn-core/scripts/harness_runtime/loop_runtime.py:341-503 | with a monotone clock this holds of every recorded phase over any history of pauses and resumes, because floored waits never exceed the floored elapsed time |
| LoopHistory.StartedPhasesAddUp | cairn-core/scripts/harness_runtime/loop_runtime.py:256-503 | of a started session, every recorded phase adds up, whatever timely requests led to it |
| LoopHistory.PausesAddUp | cairn-core/scripts/harness_runtime/loop_runtime.py:458-503 | any number of pauses and resumes adds exactly their floored waits and moves nothing else but the time of the last write |
| LoopHistory.RecordedWaitIsTotal | cairn-core/scripts/harness_runtime/loop_runtime.py:100-121 | the step that ends a phase reports as waiting exactly the sum of that phase's pauses, and as elapsed the time since the phase started |
| LoopHistory.PhasesStartFresh | cairn-core/scripts/harness_runtime/loop_runtime.py:420-426 | the first phase, and every phase an accepted step leads to, starts with no wait and no pause |
| LoopRuntimes.LoopRuntime.StartSession | cairn-core/scripts/harness_runtime/loop_runtime.py:256-310 | starts exactly for an enabled loop, safe names, a manifest with a continuation and an unused id, given or generated; a generated id is always a safe one; adds one session and touches no other; a refusal stores nothing |
| LoopRuntimes.LoopRuntime.RecordStep | cairn-core/scripts/harness_runtime/loop_runtime.py:341-455 | accepts exactly what no check refuses, stores the advanced session and no other, keeps every stored history sound, and leaves everything as it was when it refuses, with the first failing check as the error |
| LoopRuntimes.LoopRuntime.PauseSession | cairn-core/scripts/harness_runtime/loop_runtime.py:458-475 | pauses exactly an active phase that is not paused; a refusal stores nothing |
| LoopRuntimes.LoopRuntime.ResumeSession | cairn-core/scripts/harness_runtime/loop_runtime.py:478-503 | resumes exactly a paused phase and adds the floored wait; a refusal stores nothing |
| Upgrade.Installation.ReplaceFrameworkDir | cairn-core/cc-cairn.py:232-357 | how a swap ends, and the installed tree, backup and stale list it leaves, for success, refusal, and an exception at the rename, the temporary directory, the copy, any carried file, or the merge report; what these come to is stated by the lemmas on failures |
| UpgradeTheorems.OldTreeSurvives | cairn-core/cc-cairn.py:274-334 | however a swap ends, the old tree is still installed or whole in the backup |
| UpgradeTheorems.BackupIs | cairn-core/cc-cairn.py:274-304 | which backup each ending of a swap leaves |
| UpgradeTheorems.FailureKeepsTreeIff | cairn-core/cc-cairn.py:251-304 | a failed replacement leaves the installed tree as it was if and only if it failed up to the rename or while copying, or had no old tree, or had carried enough for every old file to be back and nothing new to be there |
| UpgradeTheorems.CarriedFirstIsOldIff | cairn-core/cc-cairn.py:306-328 | the tree after part of the carrying is the old one if and only if every shipped file was there before and every old file is carried already or shipped unchanged |
| UpgradeTheorems.TemporaryFailureUninstalls | cairn-core/cc-cairn.py:286-289 | if the temporary directory cannot be made, any installed tree is gone, whole in the backup |
| UpgradeTheorems.CarryFailureIsNotUndone | cairn-core/cc-cairn.py:306-328 | a release that replaces one file and lacks the version file, failing before the version file is carried, leaves another tree than the old one |
| Upgrade.Installation.RestoreFailedSwap | cairn-core/cc-cairn.py:406-413 | the backup becomes the installed tree again, or the installed tree goes away |
| Upgrade.CarryForward | cairn-core/cc-cairn.py:306-328 | the loop over the sorted backup files carries and drops exactly the files that the three-way rule names, or, when it fails before one file, has carried exactly the earlier ones |
| Upgrade.ModifiedFrameworkFiles | cairn-core/cc-cairn.py:204-229 | lists, sorted, the old unprotected files that the release replaces by different content |
| Upgrade.UpgradeFileChanges | cairn-core/cc-cairn.py:702-740 | reports nothing for a fresh install, otherwise the three sorted lists whose truth the lemmas below decide |
| UpgradeTheorems.DroppedIsPredictedIff | cairn-core/cc-cairn.py:702-740 | the dropped list is the set of files the swap loses if and only if the release ships every unprotected file it shares with the old tree |
| UpgradeTheorems.KeptIffCarried | cairn-core/cc-cairn.py:314-328 | a file keeps its content whatever the release holds under the same names if and only if the three-way rule carries it |
| UpgradeTheorems.OwnedIff | cairn-core/cc-cairn.py:152-161 | framework-owned files are those that are, or lie below, one of the nine named directories |
| UpgradeTheorems.OwnedFollowsRelease | cairn-core/cc-cairn.py:314-328 | below them the new tree holds just what the release ships |
| UpgradeTheorems.ExcludedIff | cairn-core/cc-cairn.py:179-183 | a path is excluded if and only if it is an excluded root or lies below one |
| UpgradeTheorems.ExcludedIsNeverInstalled | cairn-core/cc-cairn.py:311-313 | neither an excluded root nor anything below it is installed |
| UpgradeTheorems.ShipIgnoredIff | cairn-core/cc-cairn.py:140-142 | a path is never shipped if and only if some part of it has one of three names or a compiled-file suffix |
| UpgradeTheorems.ProtectedIsKept | cairn-core/cc-cairn.py:127-127 | the two protected files keep their content unless they are excluded |
| UpgradeTheorems.OwnFilesAreKept | cairn-core/cc-cairn.py:314-328 | a user's own file outside framework-owned directories is kept |
| UpgradeTheorems.ReleaseReplaces | cairn-core/cc-cairn.py:232-334 | any other file of the release takes the place of the old one |
| UpgradeTheorems.NeverReported | cairn-core/cc-cairn.py:204-229 | version metadata and protected files are never reported as overwritten |
| UpgradeTheorems.DifferenceIsReported | cairn-core/cc-cairn.py:204-229 | any other file that both trees hold with different contents is, unless it is excluded |
| UpgradeTheorems.PreservedIsPredictedIff | cairn-core/cc-cairn.py:702-740 | the preserved list is the set of such files if and only if no protected file lies under an excluded root |
| UpgradeTheorems.OverwrittenIsPredictedIff | cairn-core/cc-cairn.py:204-229 | the overwritten list is the set of files the swap changes, version metadata aside, if and only if no unshipped file that both trees hold differs |
| UpgradeTheorems.UnreportedLoss | cairn-core/cc-cairn.py:724-729 | a cache file in both trees is lost and not listed as dropped |
| UpgradeTheorems.FalseOverwrite | cairn-core/cc-cairn.py:204-229 | with different contents it is listed as overwritten although the new tree does not hold it |
| UpgradeTheorems.FalsePreserve | cairn-core/cc-cairn.py:730-739 | a protected file that is itself an excluded root is listed as preserved and as dropped, and is lost |
| UpgradeTheorems.UpgradeIsIdempotent | cairn-core/cc-cairn.py:232-334 | upgrading again with the same release changes nothing |
| UpgradeTheorems.SwapThenRollBack | cairn-core/cc-cairn.py:1590-1626 | rolling back after a completed swap leaves the old tree in place, whatever the steps in between have made of the new one; a refused swap leaves it too |
| Uninstall.RenameBack | cairn-core/cc-cairn.py:1846-1848 | renaming a tree to an unused name and back restores the files |
| Uninstall.TemporaryIsSibling | cairn-core/cc-cairn.py:1798-1798 | setting aside is a rename within the same directory, to a hidden name with a suffix of its own |
| UninstallTransaction.UnstageLast | cairn-core/cc-cairn.py:1846-1848 | undoing the last staged rename gives the files as they were before it |
| UninstallTransaction.ClearedIsWithout | cairn-core/cc-cairn.py:1850-1851 | deleting what was set aside leaves exactly the files outside the staged assets, apart from the updated state files |
| UninstallTransaction.Project.Stage | cairn-core/cc-cairn.py:1795-1805 | a path is renamed aside, or nothing is there, or the temporary name is taken and nothing changes |
| UninstallTransaction.Project.StageAssets | cairn-core/cc-cairn.py:1809-1819 | all assets whose signature matches their source's, which `UnmodifiedIff` says of the contents, are staged in order, unless an exception strikes or a temporary name is taken |
| UninstallTransaction.Project.RestoreStateFiles | cairn-core/cc-cairn.py:1837-1845 | the five state files are as in the snapshots and nothing else moves |
| UninstallTransaction.Project.Unstage | cairn-core/cc-cairn.py:1846-1848 | renaming back in reverse order returns to the files before staging, however many were staged |
| UninstallTransaction.Project.Uninstall | cairn-core/cc-cairn.py:1786-1851 | whichever step fails, the files are as before; it commits exactly if no step raises and no temporary name is taken, and then the staged assets and the root are gone and nothing else but the state files changed |
| UninstallTheorems.MatchingIffUnmodified | cairn-core/cc-cairn.py:1809-1819 | for assets that do not overlap, the staged ones are exactly those that hold some file and the same files with the same contents as their source when the command starts |
| UninstallTheorems.UnmodifiedAreRemoved | cairn-core/cc-cairn.py:1738-1851 | for assets that do not overlap each other, their sources or the framework root: after a commit an asset that held its source's files and contents is gone, and everything under any other is exactly as it was |
| UninstallTheorems.RootIsRemoved | cairn-core/cc-cairn.py:1820-1851 | after a commit nothing is left at or below the framework root |
| UninstallTheorems.OthersAreKept | cairn-core/cc-cairn.py:1738-1851 | after a commit every file outside the root and all assets, other than a state file, is as it was |
| UninstallTheorems.UnmodifiedIff | cairn-core/cc-cairn.py:626-648 | the comparison of signatures is the comparison of files and their contents |
| Percentile.SortRealsSorts | cairn-core/scripts/harness_runtime/benchmark.py:117-117 | the list is put in ascending order and keeps its values |
| Percentile.PercentileAtRank | cairn-core/scripts/harness_runtime/benchmark.py:114-124 | a percentile that falls on a rank is the value of that rank |
| Percentile.PercentileBetweenRanks | cairn-core/scripts/harness_runtime/benchmark.py:114-124 | between two ranks it is their average weighted by the distance to each |
| Percentile.PercentileIsMonotone | cairn-core/scripts/harness_runtime/benchmark.py:114-124 | a higher percentile never gives a smaller value |
| Percentile.PercentileEnds | cairn-core/scripts/harness_runtime/benchmark.py:114-124 | 0 gives the least of the values and 1 the greatest |
| Percentile.PercentileIgnoresOrder | cairn-core/scripts/harness_runtime/benchmark.py:114-124 | the order of the samples does not matter |

## Left out

Of the modelled code:

- Globs: how a bracket body selects characters belongs to Python's `fnmatch`; it is a parameter, and every result holds for every reading of it.
- ScopeOverlap.DeclaredPathParts: trimming of blanks and backticks around a declared scope; values are taken as trimmed, and a scope whose first or last segment would be trimmed again after rejoining is not modelled.
- WaveExecution.NormalizeOutcome: lower-casing is ASCII, which decides the same statuses, since no other character lower-cases into one of their spellings; a status that is not a string enters as its `str` text; the wording of the executor's own errors is not fixed.
- WaveExecution: times, `elapsed_ms`, and outcomes that are `BaseException`s; the argument checks on `max_parallel` and `timeout_s` appear as the validity of a configuration.
- WaveTheorems.CleanRunRecordsOutcomes: says nothing of runs that time out, whose outcomes the code does not promise to record; they are covered by the invariant, `TerminalForever`, `DispatchedAtMostOnce`, `DispatchFitsPool`, `ReturnedIsFinal` and `ReturnedSummaryAcceptedIff`.
- WaveSummary.ValidateExecutionSummary: the order of the errors and their texts; the ISO-8601 parser is a parameter; the summary's `status` key, which the validator ignores, is dropped.
- WavePlan: the order in which Python iterates over a set of files is arbitrary, so which of several overlaps is reported is not fixed.
- ChangeOrder.TopologicalSort: the order of dictionaries and sets is arbitrary, so the list is characterised but not unique.
- BraceTrees.ExpansionDenotes: tree leaves inside a group are non-empty, without comma, braces or outer blanks, since the code trims items and cannot tell such text from its own punctuation.
- LoopHistory.PhaseTimesAddUp: exact integer time; the code multiplies float seconds by 1000 before it truncates, so a span can come out one millisecond short.
- LoopHistory.StartedPhasesAddUp: the same.
- LoopSession: float rounding of time spans; reading and writing of JSON, defaults for fields that older sessions lack, audit files and observability events; clock readings, measured durations and random tokens are inputs.
- Upgrade: symbolic links, empty directories, a path that is a file in one tree and a directory in the other, the contents of the merge report, an older backup once it is removed, a single file copied in part, and failures of the restoring rename itself.
- Uninstall: symbolic links, empty directories and their removal, failures while deleting after the commit; the metadata and hook updates are an arbitrary change of the five state files, which by the project's layout lie outside every staged path.
- UninstallTheorems.UnmodifiedAreRemoved: speaks of assets apart from each other, their sources and the root; overlapping assets are covered only by what `Project.Uninstall` itself states.
- Percentile.PercentileOf: defined for percentiles from 0 to 1, which is all that the callers use; reals instead of floats.

Of the repository:

- `check_dependencies`, orphan detection and governance scopes, which partition lists by one test each.
- `validate_record`, `summarize` and `compare` of the benchmark, which fill reports field by field.
- Markdown, YAML and JSON parsing, subprocesses, git, the network, the command line and everything printed.
- Schema validation, linting, intent routing, host probing, dashboards and documentation context.
