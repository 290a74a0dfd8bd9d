# Verified models of ns-3's scripting algorithms

This project models the self-contained algorithms in ns-3's build, test and documentation scripts, and proves what
they promise. Everything is stated for all inputs, all dictionary orders, all interleavings or all exit codes.

| files | what they model |
|---|---|
| `Options`, `Sequences`, `Digraph` | values that may be missing, duplicate-free sequences, walks, cycles and longest-chain depth in a finite directed graph |
| `DependencyTables`, `Topsort`, `TopsortLevels`, `TopsortBlocks` | the first-in-first-out worklist and the level-by-level peel of `topsort.py`, and how their results relate |
| `Rotation`, `FindCycles`, `CycleAgreement` | the stack-of-paths search for simple cycles, and its agreement with `topsort` |
| `WorklistOrders`, `ModuleNumbering` | the orders the worklist can give an acyclic graph, and the numbering of ns-3 modules that rests on them |
| `Dispatcher`, `DispatcherProofs`, `DispatcherRuns`, `DispatcherInterrupts` | the worker threads, queues, sentinels and interrupt flag of `test.py` |
| `ShellParse`, `ShellGrammar`, `ShellAssignments`, `ShellCanon` | the token machine of the mini-shell, its grammar, which tokens are assignments, and the printer it inverts |
| `ShellRun`, `ShellEval`, `ShellList`, `ShellPaths` | the run loop of the mini-shell, what it evaluates, by pipe groups and by elements, the errors it ends in, and the directories it launches in |
| `ShellFiles`, `ShellLeftovers` | its file and process bookkeeping, and the pipelines for which something is left open or running |
| `ShellAndOr`, `ShellPosix`, `ShellSeparations` | how that compares with the lists and pipelines of the POSIX.1-2008 Shell Command Language |
| `TypeGraph`, `TypeWalks`, `StaticInformation` | the walk over the type graph for the documentation's path lists |
| `PatchFormat`, `PatchParser`, `PatchObjects`, `PatchText` | reading and writing unified diffs in `check-style.py` |
| `CommonFactors`, `Binary`, `Permutations` | the number and sequence algorithms of `rad_util.py` |
| `StreamWriter` | the resumable stream writer of `tcp-large-transfer.cc` |

Loops that update variables are methods proved against specification functions or relations; the main theorems are
lemmas about those. Dictionaries whose key order Python leaves open are maps iterated in an arbitrary order, so the
results hold for every order. A `ghost` parameter of a method carries proof data only.

Findings worth knowing:

- A comment in `topsort.py` (line 109) says that each leftover element of a cyclic input has a child. It need not
  (`LeftoverWithoutChild`); what every leftover has is a parent among the leftovers.
- Every leftover has a child exactly when no childless element lies downstream of a cycle (`LeftoversHaveChildrenIff`).
- `run` returns as soon as && or || short-circuits, so mixed lists associate to the right. It does what section 2.9 of
  the POSIX.1-2008 Shell Command Language says, for all exit codes, exactly when three things hold (`RunIsPosixIff`):
  every `cd` has its directory and something behind it; behind the leading directory changes only one of && and ||
  occurs, the && behind later directory changes included (`a || cd x && b` differs); and the redirections mean the
  same. They do unless a pipe leads into a `cd` (`a | cd x && b` feeds `b` in `x` from `a`) or into a redirected input
  (`a | b < f` ignores `f`), a relative redirection stands behind a directory change (`cd x && a > f` writes `f`, not
  `x/f`), or output goes to a file called `NUL:`. `SeparatingInputs` checks these four inputs.
- `run` returns a status for all exit codes exactly when every `cd` is complete, and otherwise the first incomplete one
  says which error it can end in (`RunReturnsIff`). Files stay open or processes unwaited for, for some exit codes,
  exactly when a pipe leads to that first incomplete `cd`, directly or over other directory changes (`RunIsTidyIff`):
  `a | cd x` and `a 2> f | cd && b` do this whatever the exit codes (`PipeIntoCdLeavesProcess`).
- Module names that differ in '-' and '_' only share a section, and `ns3_module_scan` numbers the section by its last
  module. Whatever order the worklist gives, each dependency is numbered below its dependents exactly when the section
  of every dependency is less deep in the graph than that of its dependent, a section being as deep as its deepest
  module (`DependenciesBelowIff`). Modules that depend on nothing of their own section can still be numbered wrongly
  (`SharedSectionInverts`), and a shared section need not do harm (`SharedSectionHarmless`).
- A worker that finds the interrupt flag up abandons a job even when it is to be skipped, so an interrupted run fails
  (`LookOutcome`, `InterruptedRunFails`).
- A body line behind a new file header is added to the last chunk of the patch before (`StrayLineGoesBack`).
- `parse` swallows a redirection operator at the very end of the tokens; the grammar says so (`dangling`).
- The dispatcher of `test.py` ends in every interleaving if and only if there is a processor or nothing to do
  (`MaximalRunsExit`); with no worker thread and some job it waits for ever.
- Writing a patch list and parsing it back gives the same list exactly when no removed line starts with "-- " and no
  added line with "++ " (`RoundTripIff`, `TextRoundTripIff`).

## Model

| member | source | states |
|---|---|---|
| DependencyTables.BuildTables | repos/ns-3-dev/bindings/python/topsort.py:77-90 | the dictionaries count, with multiplicity, the pairs into each element and list its children in pair order |
| DependencyTables.WithoutParents | repos/ns-3-dev/bindings/python/topsort.py:93 | each key with count zero once, in any dictionary order |
| DependencyTables.PendingZero | repos/ns-3-dev/bindings/python/topsort.py:86-87 | an element's count is zero exactly when all its parents have been processed |
| DependencyTables.PendingStep | repos/ns-3-dev/bindings/python/topsort.py:97-101 | processing a parent lowers the count of each element by the number of times it is that parent's child |
| Topsort.CountDown | repos/ns-3-dev/bindings/python/topsort.py:100-103 | the inner loop keeps the counts right and appends exactly the children whose last parent this was, in the order in which they are listed last |
| Topsort.Topsort | repos/ns-3-dev/bindings/python/topsort.py:77-112 | sorts if and only if there is no cycle; the answer lists each element not behind a cycle once, parents first, in worklist order, those released by one parent in its order; the leftover keys are exactly the elements on or reachable from a cycle, with their remaining counts and children |
| Topsort.LeftoverIsBehindCycles | repos/ns-3-dev/bindings/python/topsort.py:108-111 | leftovers are exactly what lies behind a cycle, each has a parent among the leftovers, and there are none exactly for acyclic input |
| Topsort.LeftoversHaveChildrenIff | repos/ns-3-dev/bindings/python/topsort.py:109-110 | every leftover has a child, as the comment says, exactly when no childless element lies downstream of a cycle |
| Topsort.LeftoverWithoutChild | repos/ns-3-dev/bindings/python/topsort.py:109-110 | a concrete input with a leftover that has no child, against the comment |
| Topsort.FifoDepth | repos/ns-3-dev/bindings/python/topsort.py:95-103 | the chain of releases behind a worklist element is as long as its longest predecessor chain |
| Topsort.ReleaseDepthMonotone | repos/ns-3-dev/bindings/python/topsort.py:95-103 | elements leave the worklist in nondecreasing depth |
| Digraph.OrderedNotBehindCycle | repos/ns-3-dev/bindings/python/topsort.py:108-112 | nothing in a parents-first listing lies behind a cycle |
| Digraph.ParentClosedIsBehindCycle | repos/ns-3-dev/bindings/python/topsort.py:108-111 | a finite set in which everything has a parent lies behind cycles |
| TopsortLevels.LevelsCore | repos/ns-3-dev/bindings/python/topsort.py:203-232 | level k is the set of elements whose longest predecessor chain has k edges, each once; every element not behind a cycle is in a level; it raises exactly on a cycle, with the rest as leftovers |
| TopsortLevels.TopsortLevels | repos/ns-3-dev/bindings/python/topsort.py:157-172 | the same for a pair list |
| TopsortLevels.NextLevel | repos/ns-3-dev/bindings/python/topsort.py:204-212 | the elements with count zero are exactly those of the next depth |
| TopsortBlocks.TopsortEmitsLevels | repos/ns-3-dev/bindings/python/topsort.py:93-106 | whatever the two functions return on the same pairs, with or without cycles, the worklist's answer is the levels laid end to end, each permuted within itself |
| TopsortBlocks.StretchIsLevel | repos/ns-3-dev/bindings/python/topsort.py:203-224 | the stretch of the answer with one depth is a permutation of that level |
| Rotation.IsRotated | repos/ns-3-dev/bindings/python/rad_util.py:761-775 | true exactly for rotations; IndexError exactly for two empty sequences |
| Rotation.RotationTransitive | repos/ns-3-dev/bindings/python/rad_util.py:735-737 | rotations of rotations are rotations |
| FindCycles.SeenBefore | repos/ns-3-dev/bindings/python/topsort.py:371-375 | a cycle counts as a duplicate exactly when it is a rotation of one already yielded |
| FindCycles.ExtendPath | repos/ns-3-dev/bindings/python/topsort.py:362-385 | pushes the path extended by each child not on it, in order, and lists every cycle a child closes, without repeating a rotation |
| FindCycles.Explore | repos/ns-3-dev/bindings/python/topsort.py:351-385 | the stack loop ends, and every simple path from the start has been looked at for cycles |
| FindCycles.PopIsLighter | repos/ns-3-dev/bindings/python/topsort.py:352-382 | replacing a path by its extensions lowers the weight of the stack, whatever the graph |
| FindCycles.CycleIsListed | repos/ns-3-dev/bindings/python/topsort.py:346-349 | every simple cycle is found although visited nodes are skipped as starts |
| FindCycles.FindCycles | repos/ns-3-dev/bindings/python/topsort.py:343-385 | terminates; yields only simple cycles, each simple cycle up to rotation, no two yielded lists rotations of each other; nothing exactly for acyclic graphs |
| CycleAgreement.TopsortAgreesWithFindCycles | repos/ns-3-dev/bindings/python/topsort.py:108-112 | topsort succeeds exactly when find_cycles yields nothing on the same adjacency, and its leftovers are the elements downstream of the yielded cycles |
| CycleAgreement.BehindIsDownstream | repos/ns-3-dev/bindings/python/topsort.py:343-385 | being behind any cycle is being downstream of a listed simple one |
| ModuleNumbering.DependencyPairs | repos/ns-3-dev/bindings/python/ns3modulescan.py:272-279 | one edge from each listed dependency to its module and nothing else |
| ModuleNumbering.NumberModules | repos/ns-3-dev/bindings/python/ns3modulescan.py:280-293 | CycleError exactly for cyclic dependencies, else KeyError exactly when a dependency is no module, else both dictionaries filled from a worklist order, dependencies first, of the modules that have or are a dependency |
| ModuleNumbering.DependenciesBelowIff | repos/ns-3-dev/bindings/python/ns3modulescan.py:286-293 | on acyclic dependencies every worklist order numbers all dependencies below their dependents exactly when each dependency's section is less deep than its dependent's |
| ModuleNumbering.DeeperIsHigher | repos/ns-3-dev/bindings/python/ns3modulescan.py:286-293 | in every worklist order the deeper of two sections has the higher number |
| ModuleNumbering.EqualDepthCanFail | repos/ns-3-dev/bindings/python/ns3modulescan.py:286-293 | between two sections of one depth some worklist order gives the first the higher number |
| ModuleNumbering.DependenciesBelow | repos/ns-3-dev/bindings/python/ns3modulescan.py:286-293 | the two cases that need no depths: with no shared section all dependencies are numbered below their dependents; one sharing its dependent's section never is |
| ModuleNumbering.SharedSectionInverts | repos/ns-3-dev/bindings/python/ns3modulescan.py:286-293 | an input where no module shares its dependency's section and a dependency is still numbered above its dependent |
| ModuleNumbering.SharedSectionHarmless | repos/ns-3-dev/bindings/python/ns3modulescan.py:286-293 | an input with a shared section where all dependencies are numbered below their dependents |
| WorklistOrders.DepthAlong | repos/ns-3-dev/bindings/python/topsort.py:93-106 | along any order the worklist can give, depth never falls |
| WorklistOrders.CanComeLast | repos/ns-3-dev/bindings/python/topsort.py:93-106 | on an acyclic graph any element is the last of its depth in some worklist order |
| ModuleNumbering.SectionSpelling | repos/ns-3-dev/bindings/python/ns3modulescan.py:287 | a section is the prefix and the name with '_' for '-' and nothing else changed |
| ModuleNumbering.SharedSectionIff | repos/ns-3-dev/bindings/python/ns3modulescan.py:287 | two modules share a section exactly when their names differ in '-' and '_' only |
| ModuleNumbering.LastModuleNumbers | repos/ns-3-dev/bindings/python/ns3modulescan.py:286-293 | a section's number is the position of the last module in it |
| ModuleNumbering.LastListingWins | repos/ns-3-dev/bindings/python/ns3modulescan.py:291-292 | exactly the listed headers are in the table, each with the section of the last module listing it |
| DispatcherProofs.StepKeepsInv | repos/ns-3-dev/test.py:849-917 | every step of main and workers, and an interrupt at any moment, keeps the invariant |
| DispatcherProofs.StepKeepsControl | repos/ns-3-dev/test.py:1427-1430 | the input queue holds real jobs in dispatch order, then sentinels, as many as workers still to be stopped |
| DispatcherProofs.StepKeepsConserved | repos/ns-3-dev/test.py:1230-1232 | each job taken off the input queue is in exactly one of: a worker's hands, the output queue, the collected results |
| DispatcherProofs.StepKeepsFitting | repos/ns-3-dev/test.py:863-917 | a job comes back abandoned only after the interrupt, else skipped as planned or with an exit code |
| DispatcherProofs.MainAdvances | repos/ns-3-dev/test.py:1180-1183 | the main thread starts, dispatches, stops, collects and joins one at a time, empty loops included |
| DispatcherRuns.RunInv | repos/ns-3-dev/test.py:1180-1183 | the invariant holds in every state of every run |
| DispatcherRuns.SentinelsStayBehind | repos/ns-3-dev/test.py:1427-1430 | in every state of every run sentinels stand behind all real jobs, which stand in dispatch order |
| DispatcherRuns.JobsAreNeverDuplicated | repos/ns-3-dev/test.py:849-917 | no job is ever in two places, and a job to be skipped is never run |
| DispatcherRuns.NothingStartsAfterInterrupt | repos/ns-3-dev/test.py:863-866 | once the flag is up no worker starts another job |
| DispatcherRuns.RunsTerminate | repos/ns-3-dev/test.py:1446-1447 | every interleaving has at most 1 + 4 workers + 6 jobs steps |
| DispatcherRuns.NotStuck | repos/ns-3-dev/test.py:1446-1447 | until main exits some thread can move, given a processor or no jobs |
| DispatcherRuns.MaximalRunsExit | repos/ns-3-dev/test.py:1585-1586 | a run that cannot continue has exited exactly when there is a processor or nothing to do |
| DispatcherRuns.ExitIsClean | repos/ns-3-dev/test.py:1638-1641 | at exit all workers are joined, both queues empty, each job came back exactly once, and the status is 0 exactly when every job was skipped or returned 0 and none was abandoned |
| DispatcherRuns.NothingAbandonedWithoutInterrupt | repos/ns-3-dev/test.py:863-866 | without an interrupt every job comes back skipped as planned or with an exit code |
| DispatcherRuns.TallyCounts | repos/ns-3-dev/test.py:1442-1471 | which counter each result goes to: abandoned ones to none, skipped, exit codes 0, 1, 2, and all others as crashed |
| DispatcherRuns.ResultsKeepOrder | repos/ns-3-dev/test.py:1442-1443 | results are collected in the order in which workers put them on the output queue |
| DispatcherRuns.RunningEndsWithCode | repos/ns-3-dev/test.py:885-917 | a worker running a job comes out of it with any exit code, recorded in the job, and in no other way |
| DispatcherRuns.PhasesInOrder | repos/ns-3-dev/test.py:1180-1183 | all workers exist before a job is dispatched, everything is dispatched before a result is looked at, all results before a join |
| DispatcherInterrupts.LookOutcome | repos/ns-3-dev/test.py:863-881 | a worker that looks at a job with the flag up abandons it, to be skipped or not; with the flag down it skips exactly the jobs to be skipped |
| DispatcherInterrupts.AbandonedIff | repos/ns-3-dev/test.py:863-866 | in every state of every run the jobs collected as abandoned are exactly those looked at behind the interrupt |
| DispatcherInterrupts.InterruptedRunFails | repos/ns-3-dev/test.py:1638-1641 | a single job looked at behind the interrupt makes the exit status 1 |
| DispatcherRuns.Summarize | repos/ns-3-dev/test.py:1442-1471 | the counters and the status of the collecting loop; status 0 exactly when every result is good |
| ShellParse.Pipeline.Parse | repos/ns-3-dev/waf-tools/shellcmd.py:120-200 | parse and the token machine accept the same tokens and leave the same fields, also when an assertion fails |
| ShellParse.Pipeline.CommitCommand | repos/ns-3-dev/waf-tools/shellcmd.py:100-103 | appends the current command, or fails and changes nothing |
| ShellParse.Feed | repos/ns-3-dev/waf-tools/shellcmd.py:135-198 | every token keeps the state variable and the current command consistent, so only the user-visible assertions can fail |
| ShellAssignments.EnvMatchIff | repos/ns-3-dev/waf-tools/shellcmd.py:23 | a token is an assignment exactly when it is a key over the 63 listed characters, '=', a nonempty value without whitespace, and at most one final newline |
| ShellGrammar.BindAppend | repos/ns-3-dev/waf-tools/shellcmd.py:138-139 | each further assignment overrides an earlier one of its name |
| ShellGrammar.ParseOfPrint | repos/ns-3-dev/waf-tools/shellcmd.py:120-200 | parsing the printed tokens of any well-formed script gives its meaning |
| ShellGrammar.UnparseBegin | repos/ns-3-dev/waf-tools/shellcmd.py:137-152 | accepted tokens from the start of a clause are a printed script, pending assignments going to the next command |
| ShellGrammar.ParseIsGrammar | repos/ns-3-dev/waf-tools/shellcmd.py:120-200 | a token list is accepted exactly when it is the print of a well-formed script, and then parses to that script's meaning |
| ShellCanon.ParseInvertsPrinter | repos/ns-3-dev/waf-tools/shellcmd.py:120-200 | for every well-formed pipeline, keys and values given by character classes, parse inverts the canonical printer, with each assignment attached to exactly its command |
| ShellCanon.ParsedPipelines | repos/ns-3-dev/waf-tools/shellcmd.py:130-200 | the pipelines parse can return are exactly the well-formed ones: odd alternation, stdout piped exactly before a pipe, a directory change only before && or last |
| ShellCanon.MatchIsBinding | repos/ns-3-dev/waf-tools/shellcmd.py:23 | a matched assignment has a key and a value, and is matched again when printed as name=value |
| ShellRun.World.ExecPipedCommands | repos/ns-3-dev/waf-tools/shellcmd.py:202-211 | waits for all processes in order; the status is the last one's exit code |
| ShellRun.World.OpenOutFile | repos/ns-3-dev/waf-tools/shellcmd.py:45-49 | the null device is shared, any other name is opened for writing |
| ShellRun.World.LaunchCommand | repos/ns-3-dev/waf-tools/shellcmd.py:241-290 | which files a command opens, in order, and how it is launched |
| ShellRun.World.FinishGroup | repos/ns-3-dev/waf-tools/shellcmd.py:311-318 | waits, closes what was opened, then the status is looked at |
| ShellRun.Run | repos/ns-3-dev/waf-tools/shellcmd.py:213-345 | run does to the world exactly what the machine does, on any list of nodes, and leaves the pipeline unchanged |
| ShellRun.OpensInOrder | repos/ns-3-dev/waf-tools/shellcmd.py:241-273 | a command opens its input, unless fed by a pipe, then its output, then its errors, numbered in that order; the null device is not opened |
| ShellRun.GroupEndInOrder | repos/ns-3-dev/waf-tools/shellcmd.py:311-318 | a group ends with all waits, then all closes, then the look at the last process's exit code |
| ShellRun.ClosesInOrder | repos/ns-3-dev/waf-tools/shellcmd.py:314-317 | files are closed in the order in which they were collected |
| ShellPaths.JoinedPath | repos/ns-3-dev/waf-tools/shellcmd.py:227 | joining keeps an absolute path and puts the pieces of any other behind those of the directory, with one slash where there is none |
| ShellPaths.RunDirectories | repos/ns-3-dev/waf-tools/shellcmd.py:221-288 | the k-th launch is the k-th command of the pipeline, in the directory of the cds before it, in order, from the last absolute one on; in the caller's without a cd |
| ShellEval.LoopEvaluates | repos/ns-3-dev/waf-tools/shellcmd.py:221-345 | from the middle of any group the loop launches and returns what the evaluator says |
| ShellEval.RunIsEval | repos/ns-3-dev/waf-tools/shellcmd.py:213-345 | running any accepted pipeline returns the status and launches the commands, in order, with directory, pipes and redirections, of the right-associated short-circuit evaluator over pipe groups |
| ShellEval.LaunchShowsView | repos/ns-3-dev/waf-tools/shellcmd.py:241-290 | the three streams a command is launched with are tied to the files it names, the null device, or its feeder |
| ShellList.GroupsAreList | repos/ns-3-dev/waf-tools/shellcmd.py:221-345 | the evaluation by pipe groups and the evaluation element by element are one, from the middle of any group |
| ShellList.RunIsList | repos/ns-3-dev/waf-tools/shellcmd.py:213-345 | on any accepted token list run launches and returns what the evaluation element by element says |
| ShellList.RunNeverAsserts | repos/ns-3-dev/waf-tools/shellcmd.py:221-233 | on accepted pipelines no assertion fails; the result is a status or the one error the first incomplete cd shows |
| ShellList.RunReturnsIff | repos/ns-3-dev/waf-tools/shellcmd.py:221-233 | a status for all exit codes exactly when every cd is complete; an error is possible exactly when it is that of the first incomplete cd |
| ShellAndOr.SameOperatorAgrees | repos/ns-3-dev/waf-tools/shellcmd.py:311-345 | for pipe groups joined by one operator only, the result equals the left-associative one of POSIX.1-2008 |
| ShellAndOr.MixedOperatorsDisagree | repos/ns-3-dev/waf-tools/shellcmd.py:319-340 | for every mixed list of pipe groups there are exit codes for which the two differ |
| ShellAndOr.AgreesWithPosixIff | repos/ns-3-dev/waf-tools/shellcmd.py:311-345 | agreement for all exit codes exactly for pipe groups joined by one operator |
| ShellPosix.GroupsArePosix | repos/ns-3-dev/waf-tools/shellcmd.py:311-345 | without directory changes the left-associative evaluation of pipe groups is the POSIX evaluation element by element |
| ShellPosix.SameViews | repos/ns-3-dev/waf-tools/shellcmd.py:241-283 | one command is launched as POSIX says exactly when its redirections mean the same |
| ShellPosix.ListsAgree | repos/ns-3-dev/waf-tools/shellcmd.py:221-345 | under the condition both evaluations launch and return the same |
| ShellPosix.ListsDiffer | repos/ns-3-dev/waf-tools/shellcmd.py:221-345 | without it there are exit codes for which they differ |
| ShellPosix.RunIsPosixIff | repos/ns-3-dev/waf-tools/shellcmd.py:213-345 | run on an accepted pipeline does what POSIX.1-2008 says, for all exit codes, exactly when every cd is complete, one operator joins the list behind its leading cds, and the redirections mean the same |
| ShellSeparations.SeparatingInputs | repos/ns-3-dev/waf-tools/shellcmd.py:213-345 | four short inputs, parsed, with the condition each fails |
| ShellSeparations.VerdictDiffers | repos/ns-3-dev/waf-tools/shellcmd.py:213-345 | on inputs that fail a condition there are exit codes for which run and POSIX launch or return something else |
| ShellFiles.RunIsOrderly | repos/ns-3-dev/waf-tools/shellcmd.py:241-345 | on any node list: files opened once, only open ones handed to processes or closed, only running processes read from or waited for, nothing open or running when a status is used or returned |
| ShellFiles.GroupEndSettles | repos/ns-3-dev/waf-tools/shellcmd.py:311-318 | after a group all its files are closed and its processes waited for, before its status is looked at |
| ShellLeftovers.RunLeaves | repos/ns-3-dev/waf-tools/shellcmd.py:213-345 | exactly which processes run leaves unwaited for on an accepted pipeline; with none, no file is left open |
| ShellLeftovers.RunIsTidyIff | repos/ns-3-dev/waf-tools/shellcmd.py:213-345 | everything is closed and waited for, for all exit codes, exactly when no pipe leads to the first incomplete cd |
| ShellLeftovers.PipeIntoCdLeavesProcess | repos/ns-3-dev/waf-tools/shellcmd.py:221-229 | a command piped into a final cd, or into a cd without directory, is left unwaited for, whatever the exit codes |
| TypeGraph.InPaths | repos/ns-3-dev/utils/print-introspected-doxygen.cc:194-282 | the walk's enumeration holds exactly the labelled simple paths from its argument that avoid the stacked types |
| TypeGraph.PathsDistinct | repos/ns-3-dev/utils/print-introspected-doxygen.cc:194-282 | no path is enumerated twice |
| TypeWalks.PathConcat | repos/ns-3-dev/utils/print-introspected-doxygen.cc:139-149 | the text of a path is that of its parts one after the other |
| TypeWalks.OneItem | repos/ns-3-dev/utils/print-introspected-doxygen.cc:139-149 | one item is printed behind a slash |
| TypeWalks.EdgesIff | repos/ns-3-dev/utils/print-introspected-doxygen.cc:203-281 | what a type leads to: pointers under their name, containers under name and "/[i]", registered children and both sides of aggregations under "$" and the name |
| TypeWalks.WalkIsRecord | repos/ns-3-dev/utils/print-introspected-doxygen.cc:194-282 | every walk from type to type that meets none twice is a simple path with its labels as record |
| StaticInformation.RecordIffWalk | repos/ns-3-dev/utils/print-introspected-doxygen.cc:150-155 | the records are those of the walks from type to type that meet none twice |
| StaticInformation.StringLessIff | repos/ns-3-dev/utils/print-introspected-doxygen.cc:190 | the order of strings: at the first difference the smaller character, or the end, comes first |
| StaticInformation.StaticInformation.HasAlreadyBeenProcessed | repos/ns-3-dev/utils/print-introspected-doxygen.cc:157-168 | membership in the ancestor stack |
| StaticInformation.StaticInformation.GetCurrentPath | repos/ns-3-dev/utils/print-introspected-doxygen.cc:139-149 | the path items each behind a slash |
| StaticInformation.StaticInformation.Get | repos/ns-3-dev/utils/print-introspected-doxygen.cc:170-183 | exactly the recorded paths of one type, strictly increasing once the output is |
| StaticInformation.StaticInformation.GatherAttributes | repos/ns-3-dev/utils/print-introspected-doxygen.cc:203-229 | follows the pointer and object-container attributes in order |
| StaticInformation.StaticInformation.GatherChildren | repos/ns-3-dev/utils/print-introspected-doxygen.cc:230-245 | follows the registered children in order |
| StaticInformation.StaticInformation.GatherAggregates | repos/ns-3-dev/utils/print-introspected-doxygen.cc:246-281 | follows the aggregations in order, from either side |
| StaticInformation.StaticInformation.DoGather | repos/ns-3-dev/utils/print-introspected-doxygen.cc:194-282 | terminates on cyclic graphs, restores both stacks, appends one record for each enumerated path, in order |
| StaticInformation.StaticInformation.Gather | repos/ns-3-dev/utils/print-introspected-doxygen.cc:185-192 | the output ends sorted and duplicate-free and holds what it held and, for each walk from the argument that meets no type twice, its last type with its labels in order behind slashes |
| StaticInformation.StrictlySortedUnique | repos/ns-3-dev/utils/print-introspected-doxygen.cc:190-191 | only one sequence is sorted, duplicate-free and has given elements |
| PatchFormat.SrcFileIff | repos/ns-3-dev/utils/check-style.py:222 | which lines are source headers, with their names |
| PatchFormat.DstFileIff | repos/ns-3-dev/utils/check-style.py:223 | which lines are destination headers, with their names |
| PatchFormat.BodyIff | repos/ns-3-dev/utils/check-style.py:225-227 | which lines are body lines, of which side and with which text |
| PatchFormat.ChunkGroupsIff | repos/ns-3-dev/utils/check-style.py:224 | which lines start a chunk, with the four numbers |
| PatchFormat.HeaderGroups | repos/ns-3-dev/utils/check-style.py:193-195 | the four numbers of a written header: source position and lines on the source side, then the same of the destination |
| PatchFormat.LeadingDigit | repos/ns-3-dev/utils/check-style.py:167-171 | numbers are read with the most significant digit first |
| PatchFormat.ClassifyBody | repos/ns-3-dev/utils/check-style.py:157-165 | a written line is read back as that line, unless it can be taken for a file header, and then as no body line at all |
| PatchFormat.ClassifyHeader | repos/ns-3-dev/utils/check-style.py:193-195 | a written chunk header is read back with its two positions |
| PatchFormat.PatchHeaders | repos/ns-3-dev/utils/check-style.py:215-219 | a written patch begins with its two names behind their prefixes, and the chunks follow |
| PatchObjects.PatchChunk.LinesOf | repos/ns-3-dev/utils/check-style.py:177-192 | the lines of one side, in order, and their number, which the header prints |
| PatchObjects.PatchChunk.Write | repos/ns-3-dev/utils/check-style.py:157-197 | header with the positions and the counts of both sides, then each line behind '-', '+' or a space |
| PatchObjects.Patch.Write | repos/ns-3-dev/utils/check-style.py:215-219 | file headers, then the chunks |
| PatchObjects.ParsePatchset | repos/ns-3-dev/utils/check-style.py:221-265 | raises exactly when the parser machine does, and else builds objects, none used twice, that show what it reads |
| PatchParser.ReadAll | repos/ns-3-dev/utils/check-style.py:221-265 | unambiguous written patches are read back |
| PatchParser.StrayLineGoesBack | repos/ns-3-dev/utils/check-style.py:231-262 | a body line behind a new file header is added to the last chunk of the patch before |
| PatchParser.RoundTripIff | repos/ns-3-dev/utils/check-style.py:215-265 | writing and parsing gives the same list exactly when no removed line starts with "-- " and no added line with "++ " |
| PatchText.TextRoundTripIff | repos/ns-3-dev/utils/check-style.py:215-265 | the same through the concatenated text and its lines |
| PatchText.JoinOfSplit | repos/ns-3-dev/utils/check-style.py:231 | the lines of a text put together give it back, and only the last can lack its newline |
| CommonFactors.Gcf | repos/ns-3-dev/bindings/python/rad_util.py:252-258 | for any signs, the nonnegative greatest common divisor, a combination of both, zero only for two zeros |
| CommonFactors.GcdGreatest | repos/ns-3-dev/bindings/python/rad_util.py:229-233 | it is also the greatest in size |
| CommonFactors.GcdIgnoresOrderAndSigns | repos/ns-3-dev/bindings/python/rad_util.py:252-258 | only one number meets gcf's contract, so the result depends on neither the order nor the signs of the arguments |
| CommonFactors.FloorModRange | repos/ns-3-dev/bindings/python/rad_util.py:255 | Python's modulo takes the divisor's sign and is smaller |
| CommonFactors.Lcm | repos/ns-3-dev/bindings/python/rad_util.py:285-290 | gcf times lcm is a times b, and lcm divides every common multiple |
| CommonFactors.ReduceFraction | repos/ns-3-dev/bindings/python/rad_util.py:345-348 | same ratio, coprime parts; fails exactly for two zeros |
| CommonFactors.ReducedIsFixed | repos/ns-3-dev/bindings/python/rad_util.py:345-348 | reducing a reduced fraction changes nothing |
| Binary.Int2BinIsBitString | repos/ns-3-dev/bindings/python/rad_util.py:91-105 | raises exactly when the number does not fit; else the n digits that bin2int reads back |
| Binary.BitStringOfValue | repos/ns-3-dev/bindings/python/rad_util.py:130 | bin2int of a binary string fits its width and gives the string back |
| Binary.Ripple | repos/ns-3-dev/bindings/python/rad_util.py:649-659 | the carry loop adds one, modulo the width |
| Binary.BinaryRange | repos/ns-3-dev/bindings/python/rad_util.py:639-660 | exactly 2^bits strings, the k-th being int2bin(k, bits) |
| Binary.GrayBits | repos/ns-3-dev/bindings/python/rad_util.py:615 | each bit of the code tells whether that bit of the number and the next higher one differ |
| Binary.GrayNeighbours | repos/ns-3-dev/bindings/python/rad_util.py:612-615 | consecutive codes differ in exactly one bit |
| Binary.GrayIsBijection | repos/ns-3-dev/bindings/python/rad_util.py:612-615 | a bijection on the numbers below 2^n for every n |
| Permutations.Permutations | repos/ns-3-dev/bindings/python/rad_util.py:310-326 | the loops build the specified list |
| Permutations.PermsInOrder | repos/ns-3-dev/bindings/python/rad_util.py:317-322 | the permutations of the rest in order, the first element inserted at every position in turn |
| Permutations.PermsAreRearrangements | repos/ns-3-dev/bindings/python/rad_util.py:293-296 | the list holds exactly the rearrangements of the input |
| Permutations.PermsCount | repos/ns-3-dev/bindings/python/rad_util.py:317-322 | there are n! entries |
| Permutations.PermsDistinct | repos/ns-3-dev/bindings/python/rad_util.py:317-322 | no entry repeats when the elements are distinct |
| StreamWriter.Sender.constructor | repos/ns-3-dev/examples/tcp/tcp-large-transfer.cc:85-90 | the buffer holds one stretch of the periodic stream |
| StreamWriter.PeriodContinues | repos/ns-3-dev/examples/tcp/tcp-large-transfer.cc:54-56 | resuming at any offset continues the period, as 26 divides 1040 |
| StreamWriter.Sender.WriteUntilBufferFull | repos/ns-3-dev/examples/tcp/tcp-large-transfer.cc:202-220 | no read past the buffer; each send offers all that the buffer, the total and the socket's space allow; the count never exceeds the total, the accepted bytes stay a prefix of the stream whatever the socket does, and it returns unclosed exactly after a refused send |
| StreamWriter.Sender.Transfer | repos/ns-3-dev/examples/tcp/tcp-large-transfer.cc:189-220 | over any number of callbacks the k-th byte accepted is 97 + k mod 26 |

## Left out

- FindCycles.FindCycles: the order in which cycles are listed is not part of the result.
- Generators: `find_cycles` and the level generator are modelled by everything they yield, not by when they yield it.
- ModuleNumbering: the section objects and the files they write to; only the two dictionaries are modelled. That the source sorts the names before it lists the pairs is not: the order of keys and pairs is arbitrary, so an order that `DependenciesBelowIff` speaks of may need other orders of both than Python happens to use.
- TopsortLevels.LevelsCore: only for dictionaries that describe one graph, as its documentation asks; others can end in KeyError.
- Dispatcher: real threads, processes, signals and the XML and HTML reports; a job is reduced to its skip mark and exit code, and errors raised while reports are written are not modelled. A further interrupt changes nothing and is no step.
- ShellRun.Run: opening and launching always succeed, the environment inherited from the caller is not modelled, and the verbose branches are left out, since they read a variable before it is set. `shlex.split` is not part of this model; parsing starts from tokens.
- ShellPosix.RunIsPosixIff: compares paths as text, so `./f` and `f` count as different files; a `cd` succeeds, and neither `cd -` nor CDPATH is modelled. What `parse` makes of the tokens is taken as given; it forgets, for one, whether `2>&1` stood before or after `>`.
- ShellParse: commands are values inside the pipeline object, because no other object keeps a reference to one.
- StaticInformation: name mangling (`find_and_replace`) and printing; the type registry is given, with every type among a finite set. Sorting and dropping duplicates is done by insertion; the library's algorithm is not modelled, its result is the only possible one.
- PatchObjects: `PatchChunkLine` is a value, since a line is set once and then only read; the trailing-whitespace rewriting that appends to lines is left out, as are `apply` and the calls to uncrustify.
- PatchParser.RoundTripIff: names and lines contain no newline and positions are natural numbers, as in anything `parse_patchset` can return.
- CommonFactors: floating-point arguments. Binary: `bits = 0`, `n = 0` and negative numbers.
- StreamWriter: the simulation around the two callbacks; a closed socket does not mean that everything was sent, since the loop also closes when buffer space runs out.
- The formatting, random, polygon and quantile helpers of `rad_util.py`, and all scenario programs, hold no algorithm of this kind.
