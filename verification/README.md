# Verified models of the ns-3 build, test and binding tooling

This project models algorithms from the tooling around the ns-3 simulator and proves what they promise.

* **Dependency sorting** (`Graphs`, `TopSort`, `TopSortLevels`, `CycleSearch`, `FindCycles`, `Rotations`). Kahn's
  algorithm on a worklist that grows while it is traversed, its level-by-level variant, and the enumeration of
  elementary cycles up to rotation: what they give, and in what order. Graphs are finite, may be cyclic and may list a
  pair several times; dictionary order is arbitrary. Walks, cycles and longest-path depth are defined on their own in
  `Graphs`, independently of any of the three algorithms.
* **The test runner's worker pool** (`TestPool`, `TestTally`). Two first-in-first-out queues, any number of jobs, P
  workers, P stop sentinels and an interrupt flag that may be raised at any moment, as a step system: a run is any
  sequence of enabled steps, with workers already active while jobs are still being queued.
* **The small shell** (`ShellParser`, `ShellSyntax`, `ShellPrinter`, `ShellGrammar`, `ShellRun`, `ShellMeaning`,
  `ShellLaunch`). The token state machine, the shape of what it accepts, a printer that inverts it, a grammar of
  exactly what it accepts, the run loop with its processes, directories and files, and a comparison with AND-OR lists
  of the POSIX Shell Command Language (section 2.9.3).
* **Configuration paths** (`ConfigPaths`, `ConfigEdges`). The depth-first walk over a cyclic type graph with explicit
  path and ancestor stacks, against the routes that visit no type twice, and the edges that such a route can take.
* **Patch sets** (`PatchSet`, `PatchReading`, `PatchRoundTrip`, `PatchWhitespace`, `PatchRepair`, `PatchPass`).
  Reading and writing unified diffs, and the pass that undoes changes of trailing white space: in closed form for every
  chunk, and then chunk by chunk for a whole patch set.
* **Combinatorics and integers** (`Permutations`, `BinaryStrings`, `Euclid`) and **Jain's fairness index** in 64-bit
  arithmetic (`Fairness`).
* **Timelines** (`Timeline`) and **shared call stacks** (`SharedStack`). Range and event lookup by binary search,
  and the factoring of the common stack out of the edges of an event node.

`Wrappers` holds the option type; `Sequences` and `Sums` hold small facts about distinct elements and about sums.

Loops and in-place updates of the original are loops and classes here; their methods are specified by functions, and
the lemmas are about those functions. Ghost parameters of a method carry only what its proof needs.

Some properties one might expect are false of the code; for these the exact condition is proved:

* `parse(A + ["&&"] + B)` is `parse(A) + [And] + parse(B)` for every `B` if and only if `A` does not end in a
  redirection without its file name (`ShellSyntax.AndJoinsIff`): otherwise the `&&` is taken as the file name, as it
  is after `x >` (`ShellSyntax.DanglingRedirection`).
* An accepted list returns a status for all exit codes if and only if it ends in a command and all its changes of
  directory name one (`ShellMeaning.ReturnsIff`). `cd x` alone is accepted and raises
  (`ShellMeaning.ChdirAloneRaises`).
* The shell nests `&&` and `||` to the right and stops at the first short circuit. With POSIX evaluated on the list
  as it was written and a change of directory as a command of status 0, an accepted list returns what the POSIX
  shell returns for all exit codes if and only if it always returns a status and, besides, either has no `||` or has
  no `&&` but those of changes of directory before the first `||` (`ShellMeaning.AgreesWithPosixIff`).
  `a || cd x && b` differs (`ShellMeaning.OrThenChdirDiffers`), and so does `a && b || c`; `cd x && a || b` agrees.
* A patch set of single-line texts reads back as itself if and only if no removed text starts with `-- ` and no
  added text with `++ ` (`PatchRoundTrip.RoundTripIff`; the text `-- ` is lost by `PatchRoundTrip.DashesAreLost`).
  Everything that was itself read satisfies this (`PatchRoundTrip.ParsedReadsBack`).
* The white-space pass leaves the source side of a chunk alone if and only if no context line is paired with a line
  of which it is the trimmed form (`PatchRepair.FixIs`; `PatchRepair.MisalignedChangesSource` gives the smallest
  chunk where one is).
* A second white-space pass over single-line texts changes nothing if and only if no context line is lengthened
  after the pass has read it as a source line against a line that is equal to it or is its trimmed form
  (`PatchRepair.FixTwiceIff`, `PatchPass.PassTwiceIff`). An added `x`, a context line `x` and a removed `x ` in that
  order need two passes (`PatchRepair.SecondPassChanges`).
* The white-space pattern is greedy in its first group, so the pass gives back exactly one blank: a line that lost
  the blanks `t` gets them back if and only if `t` is a single one (`PatchWhitespace.RestoredIffOneBlank`), and a
  line that lost two stays as it is (`PatchWhitespace.TwoBlanksAreLost`).
* The result of the pass over any accepted input can be written and read back if and only if it never turns an added
  `++` into `++ ` (`PatchPass.PassReadsBackIff`). It does so on the five lines of `PatchPass.HiddenDoesNotReadBack`.
* On sorted disjoint ranges, `get_ranges` gives the ranges that meet the interval, no more and no less, if and only
  if both ends are covered, or only the start is and the end lies after the last range, or only the end is and the
  start lies before the first, or neither is and no range lies between them (`Timeline.GetRangesIsExactIff`). From
  0.5 to 2 it also gives the second of the ranges [0, 1] and [5, 6] (`Timeline.EndBetweenRanges`).
* `get_shared_stack` takes an empty frame for a missing one. It finds the longest common prefix if and only if no
  frame of that prefix is empty and the frames right after it are not of this kind: empty for the first edges and
  one nonempty frame for all the others (`SharedStack.FactoredIff`; the input is in
  `SharedStack.EmptyFrameGivesWay`). It likewise takes a time of 0 for a missing one: the node gets the smallest
  time if and only if that is not 0 or the last time is 0 (`SharedStack.EarliestIsMinimumIff`; of the times 0 and 5
  it takes 5 by `SharedStack.ZeroGivesWay`).
* The test runner can finish if and only if it has a worker or no job (`TestPool.FinishesIff`): a process limit
  below zero starts no worker, and then no run with a job ends (`TestPool.NoWorkerNoEnd`).
* `is_rotated` raises on two empty lists (`Rotations.IsRotated` returns `None` exactly there).

## Model

| member | source | states |
|---|---|---|
| `Rotations.IsRotated` | bindings/python/rad_util.py:735-775 | true exactly when the second list is the first one cut once and swapped; an exception exactly on two empty lists |
| `Rotations.RotationSymmetric` | bindings/python/rad_util.py:735-775 | being a rotation is symmetric |
| `Rotations.RotationTransitive` | bindings/python/rad_util.py:735-775 | being a rotation is transitive, so cycles can be compared by representatives |
| `TopSort.CountParents` | bindings/python/topsort.py:77-90 | the two dictionaries have every item of the pairs as key, with the number of pairs leading to it and its children in order, repetitions included |
| `TopSort.ZeroKeys` | bindings/python/topsort.py:93 | the items without parents, each once, in some order |
| `TopSort.Release` | bindings/python/topsort.py:97-106 | one pass of the worklist loop: counts of the children drop, exactly those that reach zero are appended, in the order of the last places at which their parent lists them, the whole stays first in, first out, and no lookup fails |
| `TopSort.WorkOff` | bindings/python/topsort.py:97-106 | the whole loop over the growing answer ends with exactly the listed items deleted, the counts of the others right, the child lists of the others unchanged, and what one deletion freed in list order |
| `TopSort.TopSort` | bindings/python/topsort.py:61-112 | fails if and only if the graph is cyclic; lists exactly the items no cycle leads to, without repetition, every parent before its children and in order of longest-path depth; the items come in the order of the deletions that free them, and those freed by one deletion in the order of their last places in its child list; on failure the leftover items are exactly those downstream of a cycle and each leftover count is the number of pairs from leftover items |
| `TopSort.FifoDepths` | bindings/python/topsort.py:97-106 | first in, first out is depth order: an item free from the start is at depth 0, any other lies one level below the item whose deletion freed it, and levels never decrease along the list |
| `TopSort.OrderIsDetermined` | bindings/python/topsort.py:93-106 | whatever satisfies this and begins with the same items without parents is the same list, so the order of the dictionary decides about these alone |
| `TopSort.LeftoverIffCyclic` | bindings/python/topsort.py:108-112 | something is left over if and only if the graph has a cycle |
| `TopSortLevels.TopSortLevels` | bindings/python/topsort.py:114-172 | level d is exactly the set of items whose longest path from a root has d edges; fails if and only if the graph is cyclic, with the same leftover as the flat sort |
| `TopSortLevels.TopSortLevelsCore` | bindings/python/topsort.py:174-232 | the same for any pair of dictionaries that describe the pairs, also with items that occur in no pair |
| `TopSortLevels.ClearLevel` | bindings/python/topsort.py:217-224 | a level is deleted from both dictionaries and every count again is the number of pairs from items still present |
| `TopSortLevels.OrderAgreesWithLevels` | bindings/python/topsort.py:93-106 | cut at the level boundaries, the flat order is the levels, up to order within a level |
| `FindCycles.IsDup` | bindings/python/topsort.py:371-375 | true exactly when some recorded cycle is a rotation of the new one |
| `FindCycles.Expand` | bindings/python/topsort.py:362-385 | for one path, every cycle closed by a child is recorded up to rotation, in the order of the children and from the child's place on the path on, and every other extension is pushed |
| `FindCycles.Explore` | bindings/python/topsort.py:351-385 | the stack loop for one start terminates, yields the cycles of a recursive search that takes the last child first, in that order, and represents every elementary cycle reachable from the start; everything newly visited is reachable from it |
| `FindCycles.FindCycles` | bindings/python/topsort.py:235-385 | terminates on every finite graph and any dictionary order; all results are elementary cycles, no two are rotations of each other, and every elementary cycle has a rotation among them; the list is that of a recursive search from every key in some order, although visited starts are skipped |
| `CycleSearch.PopIsVisit` | bindings/python/topsort.py:352-385 | working off a stack of paths is the recursive search: taking a path, closing its cycles and pushing its extensions does not change what the search from the stack will yield |
| `FindCycles.NothingNew` | bindings/python/topsort.py:347-349 | skipping a start is harmless: when every cycle reachable from it is known, searching from it would add nothing |
| `FindCycles.StackGetsLighter` | bindings/python/topsort.py:352-385 | the exponential weight of the stack decreases when a path is replaced by its extensions |
| `FindCycles.ExactlyOneRotation` | bindings/python/topsort.py:343-385 | each elementary cycle is a rotation of exactly one result |
| `FindCycles.SortFailsIffCycleFound` | bindings/python/topsort.py:108-112 | from what the two methods promise: sorting fails if and only if cycle finding on the same children yields something |
| `FindCycles.SortAndFindCycles` | bindings/python/topsort.py:61-385 | both methods on the same pairs: exactly one of a sorted order and a nonempty list of cycles comes out |
| `TestPool.ReachableInv` | test.py:994-1062 | the invariant (places of jobs, sentinels, break flags, phase, truth of results) holds after every run, whatever the interleaving and the time of an interrupt |
| `TestPool.JobIsInOnePlace` | test.py:994-1062 | in every reachable state a dispatched job is in exactly one of input queue, worker, output queue and collection, and any other job nowhere |
| `TestPool.NoEarlyStop` | test.py:1721-1724 | once some worker has exited, only sentinels are left in the input queue |
| `TestPool.OnlySentinelsBreak` | test.py:1003-1016 | although workers set the break flag on jobs, no job in the input queue has it set: only sentinels do |
| `TestPool.InputIsFifo` | test.py:1721-1724 | in every reachable state the input queue is the end of the jobs in order, followed by the sentinels |
| `TestPool.OutputIsFifo` | test.py:1743-1746 | results are collected in the order in which they were reported |
| `TestPool.FlaggedIffInterrupted` | test.py:1009-1012 | a collected job has its break flag set if and only if its worker saw the interrupt and did not run it |
| `TestPool.InterruptIsSeen` | test.py:1009-1012 | a job that no worker has looked at when the interrupt is up is never run: in every continuation each result for it is that of a job handed back |
| `TestPool.SeenIsKept` | test.py:1009-1062 | a job past that point stays past it: whatever follows, no worker hands it back unrun |
| `TestPool.InterruptedIff` | test.py:1009-1012 | so of the jobs collected after an interrupt exactly those are handed back unrun that no worker had looked at when it came |
| `TestPool.FinalState` | test.py:1743-1746 | a finished run collected each job once, emptied both queues and stopped every worker, and every result is true of its job |
| `TestPool.NoDeadlock` | test.py:1721-1746 | with at least one worker or no job, unless the main thread has finished it or some worker can move |
| `TestPool.RunsAreBounded` | test.py:994-1062 | no run has more than 6 steps per job, 3 per worker and 4 more, not counting interrupts |
| `TestPool.EveryRunCanFinish` | test.py:1882-1883 | with at least one worker or no job, every run can be continued, without interrupts, until all joins have returned |
| `TestPool.StuckOnlyWhenFinished` | test.py:1882-1883 | and a run that cannot be continued has finished |
| `TestPool.NoWorkerNoEnd` | test.py:1436-1450 | without a worker no run that has a job finishes |
| `TestPool.FinishesIff` | test.py:1436-1450 | a run can be continued to the end if and only if there is a worker or no job |
| `TestTally.CountResults` | test.py:1736-1777 | passed, failed, valgrind errors and skipped are the numbers of results with code 0, 1, 2 and with none because skipped, crashed is the number of those with any other code, and with the interrupted ones they add up to all results |
| `TestTally.ExitCodeIsZeroIff` | test.py:1966-1969 | after every finished run the exit code is 0 if and only if no job was interrupted and every job is skipped or returns 0 |
| `TestTally.ScheduleIsIrrelevant` | test.py:1743-1777 | every finished run without an interrupt leaves the counters that doing the jobs one after the other would |
| `ShellParser.Pipeline.CommitCommand` | waf-tools/shellcmd.py:101-104 | appends the command being built, and fails exactly if there is none |
| `ShellParser.Pipeline.Consume` | waf-tools/shellcmd.py:137-199 | one token in each of the six states, with every assertion that can fail |
| `ShellParser.Pipeline.ParseTokens` | waf-tools/shellcmd.py:121-201 | the loop gives the fold of the token steps and the final commit, or fails |
| `ShellGrammar.EnvMatchIff` | waf-tools/shellcmd.py:24-24 | a token is taken for the assignment of v to k if and only if it is k, an equals sign and v, perhaps with a newline behind it, where k is a nonempty word of letters, digits and underscores and v is nonempty and has no white space |
| `ShellGrammar.SentenceParses` | waf-tools/shellcmd.py:121-201 | every sentence of the grammar (units of assignments, words and redirections, or changes of directory, joined by operators) parses to its meaning |
| `ShellGrammar.ParseIff` | waf-tools/shellcmd.py:121-201 | a token list parses to a pipeline if and only if it is written by a sentence that means this pipeline |
| `ShellSyntax.ParsedIsPipeline` | waf-tools/shellcmd.py:121-201 | whatever is accepted alternates work and operator, starts and ends with work, writes to a pipe exactly where a pipe follows, and has only `&&` after a change of directory |
| `ShellSyntax.AndJoinsComplete` | waf-tools/shellcmd.py:170-173 | if the first part ends complete, `&&` puts an And node between the two pipelines, and the whole is accepted exactly if the second part is |
| `ShellSyntax.AndIsSwallowed` | waf-tools/shellcmd.py:188-199 | after a redirection without a file name it never does |
| `ShellSyntax.AndJoinsIff` | waf-tools/shellcmd.py:121-201 | the law holds for every continuation if and only if the first part ends complete |
| `ShellSyntax.DanglingRedirection` | waf-tools/shellcmd.py:155-156 | a command with a redirection and no file name is accepted, and the law fails for it |
| `ShellPrinter.RoundTrip` | waf-tools/shellcmd.py:121-201 | writing any well-formed pipeline as tokens and parsing them gives it back, environment, arguments and redirections included |
| `ShellPrinter.NormalForm` | waf-tools/shellcmd.py:121-201 | every accepted token list parses to a pipeline that can be written, and the writing parses to the same |
| `ShellRun.ExecPipedCommands` | waf-tools/shellcmd.py:203-212 | waits for each process of a group once, in order, and returns the status of the last one |
| `ShellRun.OpenFiles` | waf-tools/shellcmd.py:242-274 | opens the files of a command in order and keeps all those opened and not closed in the list of files to close |
| `ShellLaunch.FilesForIs` | waf-tools/shellcmd.py:242-274 | starting a process opens its input file first, unless it reads a pipe, then the files of its output and, last, of its errors, and neither null device |
| `ShellRun.FinishGroup` | waf-tools/shellcmd.py:312-319 | a group ends with all its processes waited for and all its files closed |
| `ShellRun.Run` | waf-tools/shellcmd.py:214-346 | the loop returns what right-nested short-circuit evaluation of the pipe groups returns, starts exactly the processes that evaluation starts, and when it returns each one has been waited for once and each file opened has been closed once |
| `ShellLaunch.JoinPathIs` | waf-tools/shellcmd.py:228-228 | an absolute directory stands alone; any other one comes behind the old one, with one slash between exactly if that is nonempty and has none at its end |
| `ShellLaunch.LaunchAt` | waf-tools/shellcmd.py:222-291 | in a well-formed list each command has one process, in order; it starts in the current directory joined in turn with exactly the directories of the changes before it, and reads from a pipe if and only if one comes right before it |
| `ShellLaunch.ExecutedIs` | waf-tools/shellcmd.py:293-346 | the run starts a nonempty beginning of these processes and returns the status of the last one it starts |
| `ShellLaunch.StartedIs` | waf-tools/shellcmd.py:312-346 | which ones: every command before the last one started lets the run go on by its operator and its status, and the last one started ends it unless it is the last of all |
| `ShellMeaning.ParsedRuns` | waf-tools/shellcmd.py:214-346 | a parsed pipeline that ends in a command and whose changes of directory all name one returns a status for all exit codes, and in each pipe group exactly the processes before the last write to a pipe that the next one reads |
| `ShellMeaning.ReturnsIff` | waf-tools/shellcmd.py:222-305 | an accepted list returns a status for all exit codes if and only if it ends in a command and all its changes of directory name one |
| `ShellMeaning.CanRaise` | waf-tools/shellcmd.py:225-228 | for every other pipeline there are exit codes for which it raises |
| `ShellMeaning.ChdirAloneRaises` | waf-tools/shellcmd.py:225-228 | a single change of directory is accepted and raises |
| `ShellMeaning.UnmixedAgrees` | waf-tools/shellcmd.py:312-346 | a well-formed list without or-operators, or whose only and-operators are those of changes of directory before the first or-operator, returns what the POSIX shell returns on the list as written |
| `ShellMeaning.MixedDisagrees` | waf-tools/shellcmd.py:312-346 | for every other well-formed list there are exit codes for which it does not |
| `ShellMeaning.AgreesWithPosixIff` | waf-tools/shellcmd.py:312-346 | so for every accepted token list, agreement for all exit codes holds if and only if the list always returns a status and is of that form |
| `ShellMeaning.OrThenChdirDiffers` | waf-tools/shellcmd.py:225-231 | for a, or, cd, and, b with a successful, the runner returns 0 without starting b, and the POSIX shell returns the status of b |
| `ShellMeaning.EvalIs` | waf-tools/shellcmd.py:214-346 | the status of the evaluation of the pipe groups, read off the list of nodes |
| `ConfigPaths.StaticInformation.GetCurrentPath` | utils/print-introspected-doxygen.cc:328-338 | the components of the path, each behind a slash |
| `ConfigEdges.SplitOfJoin` | utils/print-introspected-doxygen.cc:328-338 | a path splits at its slashes into its components if these have none |
| `ConfigEdges.JoinOfTwo` | utils/print-introspected-doxygen.cc:461-464 | the component of a container reads as two |
| `ConfigPaths.StaticInformation.HasAlreadyBeenProcessed` | utils/print-introspected-doxygen.cc:349-361 | true exactly for the types on the ancestor stack |
| `ConfigPaths.StaticInformation.RecordOutput` | utils/print-introspected-doxygen.cc:341-346 | appends the type with the current path |
| `ConfigPaths.StaticInformation.DoGather` | utils/print-introspected-doxygen.cc:420-503 | terminates on any cyclic type graph, restores both stacks, keeps them of equal height and the ancestors distinct, and appends one entry for each recorded route, in order |
| `ConfigPaths.StaticInformation.Gather` | utils/print-introspected-doxygen.cc:411-417 | from empty stacks, the whole output of a root; the deduplication works on a copy and changes nothing |
| `ConfigEdges.EdgeIff` | utils/print-introspected-doxygen.cc:429-502 | an edge is followed if and only if an attribute points to its target, which is not the object type, under the name of the attribute, or a container attribute has it as item, under the name with `/[i]`, or it is a registered type derived from this one, or the other end of an aggregation, under `$` and its name |
| `ConfigEdges.EdgesInOrder` | utils/print-introspected-doxygen.cc:429-502 | first the edges of attributes, then those of derived types, then those of aggregations, each in list order |
| `ConfigEdges.OneStepAway` | utils/print-introspected-doxygen.cc:411-502 | every type one edge away from the root is offered under a slash and the name of that edge |
| `ConfigPaths.RoutesAreTheSimpleOnes` | utils/print-introspected-doxygen.cc:420-503 | the routes recorded are exactly the edge sequences that visit no type twice |
| `ConfigPaths.RoutesInOrder` | utils/print-introspected-doxygen.cc:420-503 | they are recorded in depth-first order |
| `ConfigPaths.BeforeIsStrict` | utils/print-introspected-doxygen.cc:420-503 | that order is irreflexive, so no route is recorded twice |
| `ConfigPaths.StaticInformation.Get` | utils/print-introspected-doxygen.cc:364-377 | the paths recorded for the type, in order |
| `ConfigPaths.PathsAreTheSimpleRoutes` | utils/print-introspected-doxygen.cc:364-377 | a path is offered for a type if and only if some simple route from the root ends there with that path |
| `ConfigPaths.StaticInformation.RecordAggregationInfo` | utils/print-introspected-doxygen.cc:294-314 | appends the pair of types found by name; the first name that no registered type has is kept in the list of unknown names instead |
| `PatchSet.ParsePatchSet` | utils/check-style.py:370-414 | the loop gives the fold of the classified lines, or fails on a line of no known form or without a patch or chunk to belong to |
| `PatchReading.HeaderIff` | utils/check-style.py:373-392 | a line is a chunk header with these positions if and only if it is `@@ -a,b +c,d @@` and anything, with four runs of digits of which a and c have these values |
| `PatchReading.AcceptedIff` | utils/check-style.py:377-414 | an input is accepted if and only if every line has a known form, every destination and header comes after some source, and every line of text after some header |
| `PatchReading.ReadingIs` | utils/check-style.py:377-414 | of every accepted input the sources, chunk headers and lines of text come back in order, each chunk in the patch of the last source before it and each line in the chunk of the last header before it, even if another source lies between |
| `PatchReading.DestinationIs` | utils/check-style.py:386-389 | the destination of a patch is the last one named before the next source |
| `PatchReading.NoDestination` | utils/check-style.py:380-389 | and is empty if none is named there |
| `PatchRoundTrip.ScanSize` | utils/check-style.py:370-414 | whatever the input, the result has exactly one line for each line of text read |
| `PatchRoundTrip.RoundTripIff` | utils/check-style.py:359-414 | a patch set of single-line texts reads back as itself if and only if no text can be taken for a file name |
| `PatchRoundTrip.DashesAreLost` | utils/check-style.py:215-228 | a removed text of two dashes and a blank does not come back |
| `PatchRoundTrip.ParsedReadsBack` | utils/check-style.py:359-414 | for every accepted input, writing the result and reading it gives the same result |
| `PatchSet.TakeHeaderBack` | utils/check-style.py:297-306 | both positions of a written chunk header are read back, whatever the lengths |
| `PatchRoundTrip.HeaderIs` | utils/check-style.py:297-306 | a chunk is written with its two positions, the number of its lines that are not of the destination alone and the number of those that are not of the source alone, in their places |
| `PatchWhitespace.RepairIs` | utils/check-style.py:427-429 | a line is kept or becomes its source line, and a repaired line needs no repair |
| `PatchWhitespace.LostBlankIff` | utils/check-style.py:417-429 | a line is repaired if and only if its source line is it with one blank or tab behind it, and perhaps a newline behind that |
| `PatchWhitespace.RestoredIffOneBlank` | utils/check-style.py:417-429 | a line that lost only blanks gets them back if and only if it lost one |
| `PatchWhitespace.TwoBlanksAreLost` | utils/check-style.py:417-429 | a line that lost two blanks stays as it is |
| `PatchWhitespace.FixChunk` | utils/check-style.py:421-431 | the pairing loop over one chunk, stopped early exactly when the destination side is the shorter one |
| `PatchRepair.FixIsLineAfter` | utils/check-style.py:421-431 | the pass over any chunk in closed form: a destination line is repaired once, from its partner as it then is, every other line and all kinds are kept |
| `PatchRepair.FixIs` | utils/check-style.py:421-431 | line kinds are kept; the source side is kept if and only if no context line is paired with a line of which it is the trimmed form; then each destination line is repaired from the original source line at its own index |
| `PatchRepair.AlignedHasNoClash` | utils/check-style.py:421-431 | that condition holds where each context line has the same index on both sides |
| `PatchRepair.MisalignedChangesSource` | utils/check-style.py:421-431 | the smallest chunk with such a line: a removed text with a blank at its end, then the text as context |
| `PatchRepair.ChangedIntoPartner` | utils/check-style.py:424-429 | in every chunk of single-line texts, a line that changes is on the destination side and takes the text its partner has at that moment; where the source side is kept, it is a line of the destination alone and takes the original text of the source line at its own index |
| `PatchRepair.FixTwiceIff` | utils/check-style.py:421-431 | for single-line texts a second pass over a chunk changes nothing if and only if no context line that some pair reads is lengthened at a later pair, while the other line of the pair equals it or is its trimmed form |
| `PatchRepair.FixTwice` | utils/check-style.py:421-431 | whatever the texts, a second pass changes nothing where the first kept the source side |
| `PatchRepair.SecondPassChanges` | utils/check-style.py:421-431 | an added x, a context x and a removed x with a blank: two passes do more than one |
| `PatchWhitespace.RemoveTrailingWhitespaceChanges` | utils/check-style.py:416-432 | reads the patches and treats chunks in order up to and including the first one with fewer destination than source lines, which ends the whole pass |
| `PatchPass.PassAt` | utils/check-style.py:416-432 | a chunk is repaired exactly if the pass gets to it, and nothing else changes |
| `PatchPass.ReachesIff` | utils/check-style.py:419-431 | the pass gets to a chunk if and only if no earlier chunk of the same or an earlier patch has fewer destination than source lines |
| `PatchPass.PassKeepsHeaders` | utils/check-style.py:416-432 | file names, positions and line kinds are always kept |
| `PatchPass.PassTwiceIff` | utils/check-style.py:416-432 | for single-line texts a second pass over a patch set changes nothing if and only if no chunk that the pass reaches has such a line |
| `PatchPass.ParsedPassTwiceIff` | utils/check-style.py:416-432 | the same for every accepted input |
| `PatchPass.PassKeepsSourceIff` | utils/check-style.py:416-432 | the source side of a chunk is kept if and only if the pass does not reach the chunk or no context line of it is paired with a line of which it is the trimmed form |
| `PatchPass.FixReadsBackIff` | utils/check-style.py:424-429 | after the pass the lines of any chunk that was read can be read back if and only if no added `++` is compared with `++ ` |
| `PatchPass.PassReadsBackIff` | utils/check-style.py:359-432 | for every accepted input, the result of the pass is written and read back as itself if and only if that happens in no chunk the pass reaches |
| `PatchPass.HiddenDoesNotReadBack` | utils/check-style.py:359-432 | five lines that are accepted and whose repaired form does not read back |
| `Permutations.Permutations` | bindings/python/rad_util.py:293-326 | n! lists, exactly the rearrangements of the input, pairwise distinct if the items are |
| `Permutations.PermAt` | bindings/python/rad_util.py:311-322 | in what order: block j has the first item walk from the front to the end through rearrangement j of the rest |
| `BinaryStrings.Int2BinIs` | bindings/python/rad_util.py:74-105 | for every width, positive or not, the conversion by hexadecimal digits gives the binary digits of a number that fits, as many as the width says, a `ValueError` exactly for larger numbers and a `KeyError` exactly for negative ones |
| `BinaryStrings.BinaryRoundTrip` | bindings/python/rad_util.py:108-130 | reading the string of a number that fits gives the number |
| `BinaryStrings.BinaryRange` | bindings/python/rad_util.py:632-660 | 2^bits strings, the k-th being that of k; none for width 0 |
| `BinaryStrings.Ripple` | bindings/python/rad_util.py:648-659 | the inner loop adds one and leaves the carry in the last toggle |
| `BinaryStrings.GrayIsBijection` | bindings/python/rad_util.py:612-615 | on the numbers of n bits the code is one-to-one and onto, with its inverse given |
| `BinaryStrings.GrayNeighbours` | bindings/python/rad_util.py:612-615 | the strings that `int2bin` returns for successive codes differ in exactly one position |
| `Fairness.Flows.Sink` | examples/tcp/dctcp-example.cc:125-129 | each counter is, modulo 2^64, the bytes its flow received since the last reset |
| `Fairness.Flows.InitializeCounters` | examples/tcp/dctcp-example.cc:143-158 | a reset starts all counts anew |
| `Fairness.Flows.Fairness` | examples/tcp/dctcp-example.cc:181-191 | both sides of the quotient are right modulo 2^64 whatever wraps on the way |
| `Fairness.NothingWraps` | examples/tcp/dctcp-example.cc:181-191 | if n counters are at most m and n*m < 2^32, no prefix sum, no square, no sum of squares and neither product wraps |
| `Fairness.GapIs` | examples/tcp/dctcp-example.cc:181-191 | Lagrange's identity: denominator minus numerator is the sum of the squared differences of all pairs |
| `Fairness.IndexIs` | examples/tcp/dctcp-example.cc:181-191 | for a nonzero sum the index lies in [1/n, 1]; it is 1 if and only if all flows are equal and 1/n if and only if only one flow received anything |
| `Fairness.ComputedIndexIs` | examples/tcp/dctcp-example.cc:181-191 | under that bound the quotient of what the method returns has all these properties |
| `Euclid.Gcf` | bindings/python/rad_util.py:252-258 | for all integers of any sign the loop ends under the floor modulus with their greatest common divisor, which is a combination of the two |
| `Euclid.GcdIsGreatest` | bindings/python/rad_util.py:252-258 | it is 0 only for two zeros, and otherwise no common divisor is greater |
| `Euclid.Lcm` | bindings/python/rad_util.py:285-290 | a common multiple that divides every common multiple, whose product with the greatest common divisor is that of the two numbers; for positive numbers the least one |
| `Euclid.ReduceFraction` | bindings/python/rad_util.py:345-348 | fails on (0, 0) only; otherwise the same ratio in a pair whose greatest common divisor is 1 |
| `Timeline.TimelineDataRange.AddRange` | utils/grid.py:123-129 | appends a range |
| `Timeline.TimelineEvent.AddEvent` | utils/grid.py:219-225 | appends an event |
| `Timeline.TimelineDataRange.Search` | utils/grid.py:105-123 | what is found contains the key; in a sorted disjoint list -1 is returned if and only if no range contains it |
| `Timeline.ContainingIsUnique` | utils/grid.py:105-123 | in such a list at most one range contains a key |
| `Timeline.TimelineDataRange.GetRanges` | utils/grid.py:136-152 | the slice from the range of the start, or the first one, to that of the end, or the last one; empty if neither is covered |
| `Timeline.TimelineDataRange.GetRangesBounds` | utils/grid.py:153-169 | the bounds of that slice |
| `Timeline.NothingIsMissed` | utils/grid.py:136-152 | with one end covered, every range that meets the interval is in the slice |
| `Timeline.GetRangesIsExactIff` | utils/grid.py:136-152 | the slice is exactly the ranges that meet the interval if and only if both ends are covered, or the last range starts by the end, or the first one ends after the start, or no range meets it, according to which ends are covered |
| `Timeline.EndBetweenRanges` | utils/grid.py:136-152 | a start inside the first of two ranges and an end between them give the second range too |
| `Timeline.TimelineEvent.Search` | utils/grid.py:201-219 | among strictly increasing events, the first one that is not before the key |
| `Timeline.TimelineEvent.GetEvents` | utils/grid.py:226-235 | the slice from the first event not before the start up to and including the first one not before the end |
| `Timeline.TimelineEvent.GetEventsBounds` | utils/grid.py:236-245 | the bounds of that slice |
| `Timeline.GetEventsIs` | utils/grid.py:226-235 | that is exactly the events of the interval, and at most one later event behind them |
| `SharedStack.Compare` | scratch/stacktrace_to_graph.py:74-84 | one round of comparing the first frames of all edges: it finds a frame if and only if the frames are empty strings up to some edge and that frame from there on |
| `SharedStack.RoundIff` | scratch/stacktrace_to_graph.py:74-84 | the same of the round as a function of the stacks |
| `SharedStack.EventNode.FactorStack` | scratch/stacktrace_to_graph.py:71-89 | the rounds end, and what is shared and what remains are those of the repeated round; times are kept |
| `SharedStack.FactoredIff` | scratch/stacktrace_to_graph.py:71-89 | the shared stack is the longest common prefix, and every stack is it followed by what remains, if and only if no frame of that prefix is empty and the frames right after it are not empty strings up to some edge and one nonempty frame from there on |
| `SharedStack.NonemptyFramesAreFaithful` | scratch/stacktrace_to_graph.py:71-89 | so it is whenever no frame is the empty string |
| `SharedStack.EmptyFrameGivesWay` | scratch/stacktrace_to_graph.py:80-84 | an empty frame gives way to the frame of a later edge, which is shared although it is not common |
| `SharedStack.EventNode.SetTime` | scratch/stacktrace_to_graph.py:91-99 | the time of the node is that of the loop over its edges, and is kept if there are none |
| `SharedStack.EarliestIsMinimumIff` | scratch/stacktrace_to_graph.py:91-99 | that time is the smallest one if and only if the smallest is not 0 or the last is 0 |
| `SharedStack.EarliestAfterZero` | scratch/stacktrace_to_graph.py:91-99 | otherwise it is the smallest of the times after the last 0 |
| `SharedStack.ZeroGivesWay` | scratch/stacktrace_to_graph.py:94-97 | of the times 0 and t, with t positive, the node gets t |

## Left out

- FindCycles.FindCycles: the generator is modelled by the list of all it yields, so what a consumer does to a yielded list, or between two yields, is not captured; a generator that is a value of `parent_children` is not either.
- TopSort.TopSort: the dictionaries handed over with the exception are modelled as values.
- Job execution in `test.py`: a job returns a given exit code; that it returns at all, and that no exception ends a worker thread, is taken for granted. Which jobs are dispatched, and all reports, are left out.
- TestPool.EveryRunCanFinish: fairness of the thread scheduler is not modelled; the bound on run lengths makes it unnecessary except for interrupts, which may repeat without end.
- ShellRun.Run: exit codes come from an oracle that numbers the processes; only the quiet mode is modelled. What is open when the loop ends in an exception instead of a status is not described.
- ShellMeaning.AgreesWithPosixIff: compares statuses only; a change of directory always succeeds, and the directories in which a POSIX shell would start its processes are not modelled.
- ShellParser.Pipeline.ParseTokens: takes a list of tokens; splitting a string into tokens is not part of this model, nor is the abbreviated display of a command.
- ConfigPaths.StaticInformation.DoGather: attributes, registered types and ancestry are given data; what the checkers of attributes do is not part of this model.
- PatchSet.ParsePatchSet: patches, chunks and lines are values addressed by position instead of shared objects; the regular expressions are modelled by the anchored prefixes they use.
- PatchPass.PassTwiceIff: speaks of single-line texts, which is all that reading gives.
- PatchWhitespace.RemoveTrailingWhitespaceChanges: lines are updated by position in the chunk, which is how a context line can be on both sides at once.
- BinaryStrings.GrayIsBijection: the code of a number below zero is not modelled.
- BinaryStrings.BinaryRoundTrip: strings with other characters than 0 and 1, which `int` also accepts or refuses, are not modelled.
- Fairness.IndexIs: the quotient is a real number, so rounding is left out; the throughput averages and all printing are too.
- Floating-point and random helpers of `rad_util.py`, drawing code, binding generation and the simulation scripts.
- Euclid.Gcf: floating-point arguments and the tolerance for them are not modelled.
- Timeline.TimelineEvent.Search: lists with equal times, for which any of the equal events may be found, get no more than an index in bounds. Sorting, which leaves the order of equal keys as it was, and all drawing are left out.
- SharedStack.EventNode.FactorStack: one node at a time; the outer loop treats each node by itself. The conversion of the time to seconds is left out.
