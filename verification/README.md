# A verified model of ns-3's tooling and example algorithms

ns-3 is a network simulator.  Around the simulator sit programs whose logic is self-contained: the
program that walks the registered types and lists their configuration paths, the script that runs the
test suites on a pool of threads, the loader that orders shared libraries, the style checker that also
fixes what it finds, the statistics of a benchmark, the timeline viewer, and the sending and measuring
code of two TCP examples.  This project models that logic in Dafny and proves what it is for.

| part | files | what is shown |
|---|---|---|
| Configuration paths | `SimplePaths`, `StaticInformation`, `Forks`, `Lists`, `RepeatedEntries`, `TypeEdges`, `TypicalAggregations` | the recursive walk over the cyclic type graph ends, restores both stacks, and records every simple path once, in preorder, and nothing else; which edges the registered types give; exactly when an entry is recorded twice |
| Test runner | `Sums`, `WorkerPool`, `PoolSafety`, `PoolRuns`, `PoolOutcome`, `PoolBreaks`, `Accounting`, `TestRun` | under every interleaving of main thread, workers and interrupt: nothing is lost or duplicated, every run ends, exactly when it can get stuck, exactly which jobs an interrupt turns into breaks, and what the counters and the exit code mean |
| Library loading | `Filters`, `LoadOrder`, `LibraryLoader` | step `k` holds the libraries whose longest dependency chain has length `k`; sorting succeeds exactly if there is no cycle, no missing library and enough stack |
| Style checker | `Guards`, `StyleText`, `StyleFixer`, `StyleGuarantees`, `StylePasses`, `IncludeFix` | verdicts by the text of the lines and the guards before them; verdicts mean that fixing would change something; fixing whitespace and tabs is idempotent although expansion can create new guard lines; exactly when fixing an include line needs a second run, and that repeated fixing ends |
| Benchmark statistics | `Welford` | the one-pass loop ends with the exact mean and the exact sum of squared deviations |
| Timeline viewer | `Timeline`, `ScaleTicks` | the binary searches find what a linear search finds; exactly when a window is right; the marks of a scale, and exactly when drawing them fails |
| TCP examples | `LargeTransfer`, `Jain`, `Fairness` | whatever the socket accepts, refuses and calls back, the stream is not spliced; the fairness index in 64-bit arithmetic, and exactly when it is right |

A type database, a style check, a socket and the results of the jobs are inputs of the model: every
statement holds for all of them.  Threads are modelled as atomic steps, and a run is any sequence of
them.  What the sources keep in fields and lists that they change in place is kept in classes here,
and each method is tied to a function of the old state; the main theorems are about those functions.
Floating point numbers are real numbers.

What the proofs brought out about the sources:

* `Uniquefy` is documented to work in place but takes its argument by value
  (`utils/print-introspected-doxygen.cc:411`, `:425`), so gathered entries are not made unique.  Within
  one gathering an entry is recorded twice exactly if a simple path leads to a type that is linked twice
  to a type off the path (`RepeatedEntries.EntriesRepeatAtDoubleLinks`), and lines `:565` and `:567` link
  nodes to the same protocol twice (`TypicalAggregations.TypicalOutputRepeats`).
* A fixing run of the style checker reports success because all files "were fixed"
  (`utils/check-style-clang-format.py:434-435`).  That holds for whitespace and tabs
  (`StylePasses.FixThenCheckPasses`).  The pass over include prefixes leaves exactly those files
  compliant in which no offending line needs another fix (`IncludeFix.OneFixIsEnough`).
* With a negative process limit (`test.py:1549-1554`, `:2309-2312`) the test runner starts no thread,
  and if there is a job to do it waits forever (`PoolRuns.DeadlockFreedom`).
* The window of a timeline is empty when neither of its ends lies in a range, even if ranges lie in
  between, and where ranges touch it may lose the outer ones (`Timeline.OrderedWindowIsComplete`,
  `Timeline.RangeInsideIsLost`, `Timeline.TouchingRangesAreLost`).  Windows of events lose events exactly
  if several happen at one time (`Timeline.WindowsReturnAll`).
* Drawing a scale fails for every stretch of at most 10, at the latest when a tenth of the step is cut
  down to zero (`utils/grid.py:1048-1052`, `ScaleTicks.ScaleRenderer.Draw`).
* The fairness index is lost or wrong for large counters under exact conditions
  (`Fairness.NoNumberExactly`, `Fairness.PrintedIndexIsRight`), which the example's default window
  does not meet (`Fairness.DefaultWindowFits`).

## Model

| member | source | states |
|---|---|---|
| SimplePaths.EnumeratesPaths | utils/print-introspected-doxygen.cc:448-531 | A depth-first walk that stops only at nodes of its own path meets every simple path from the root that avoids the given nodes, once each, in preorder, and nothing else, on every finite graph with cycles and parallel edges |
| SimplePaths.EnumerationIsUnique | utils/print-introspected-doxygen.cc:448-531 | Order and multiplicity are fixed: two preorder enumerations of the same paths are the same list |
| SimplePaths.FirstEdge | utils/print-introspected-doxygen.cc:450-455 | Taking a type onto the stack and leaving by an edge keeps exactly the simple paths that start with that edge |
| SimplePaths.UnseenShrinks | utils/print-introspected-doxygen.cc:477-479 | The types not yet on the stack are fewer by one after a push: the measure by which the recursion ends |
| Introspection.StaticInformation.RecordAggregationInfo | utils/print-introspected-doxygen.cc:329-348 | Both names known: the pair is aggregated; otherwise the first unknown name, and only it, is noted |
| Introspection.StaticInformation.HasAlreadyBeenProcessed | utils/print-introspected-doxygen.cc:380-391 | True exactly for the types on the stack |
| Introspection.StaticInformation.GetCurrentPath | utils/print-introspected-doxygen.cc:361-370 | The labels on the stack, each after a slash |
| Introspection.StaticInformation.DoGather | utils/print-introspected-doxygen.cc:448-531 | Ends on every type graph, leaves both stacks as they were, and only appends to the output: the entries of the walk from this type under the current stacks |
| Introspection.StaticInformation.GatherAttributes | utils/print-introspected-doxygen.cc:456-496 | The loop over attributes follows, in order, pointers except those to plain Object, and containers below "/[i]"; which edges these are is stated by `TypeEdges.EdgesInOrder` |
| Introspection.StaticInformation.GatherDescendants | utils/print-introspected-doxygen.cc:497-509 | The loop over registered types follows the strict descendants |
| Introspection.StaticInformation.GatherAggregates | utils/print-introspected-doxygen.cc:510-530 | The loop over aggregation pairs follows them in both directions |
| TypeEdges.EdgesInOrder | utils/print-introspected-doxygen.cc:456-530 | The edges of a type, in order: one for each attribute that points to something else than plain Object or holds items, with its name or its name and "/[i]"; then one for each strict descendant; then one for each pair it takes part in, to the other partner; and no others |
| TypeEdges.EdgesAre | utils/print-introspected-doxygen.cc:456-530 | An edge is one of a type if and only if an attribute, a descendant or a pair gives it |
| TypeEdges.EdgeIsFound | utils/print-introspected-doxygen.cc:448-531 | Whatever a type has an edge to is recorded with the current path and the label of that edge, unless it is on the stack |
| TypeEdges.PointeeIsFound | utils/print-introspected-doxygen.cc:467-478 | So what an attribute points to is recorded below the name of the attribute, unless it is plain Object or on the stack |
| TypeEdges.ItemIsFound | utils/print-introspected-doxygen.cc:480-495 | And the item type of a container below the name and "/[i]" |
| TypeEdges.DeadEndIsAlone | utils/print-introspected-doxygen.cc:456-531 | A type whose pointers all lead to plain Object, without containers, descendants and partners, is recorded alone |
| Introspection.StaticInformation.Gather | utils/print-introspected-doxygen.cc:440-445 | From empty stacks, exactly one entry is appended for each simple path from the type, in preorder, with its end and its joined labels |
| Introspection.FoundAreEntries | utils/print-introspected-doxygen.cc:373-377 | What the walk records is one entry for each path of the enumeration, in its order |
| Introspection.StaticInformation.Get | utils/print-introspected-doxygen.cc:394-406 | The recorded strings of one type in order |
| Introspection.LookupFindsPathsEndingAt | utils/print-introspected-doxygen.cc:394-406 | After one gathering, looking up a type yields exactly the renderings of the simple paths from the root that end there |
| TypicalAggregations.GetTypicalAggregations | utils/print-introspected-doxygen.cc:538-592 | With the listed aggregations recorded, gathering from every root leaves the entries of one walk after the other |
| TypicalAggregations.LookupAcrossRoots | utils/print-introspected-doxygen.cc:582-590 | After gathering from all roots, looking up a type yields, root by root, exactly the renderings of the simple paths that end there, once each and in preorder |
| Forks.PathsPart | utils/print-introspected-doxygen.cc:448-531 | Two simple paths that spell the same labels part at two equal edges of one type |
| RepeatedEntries.RenderJoins | utils/print-introspected-doxygen.cc:361-370 | A joined path is each label after a slash, whatever way it is cut in two |
| RepeatedEntries.RenderIsInjective | utils/print-introspected-doxygen.cc:361-370 | With plain names, different labels are joined to different strings |
| RepeatedEntries.EntriesRepeatAtForks | utils/print-introspected-doxygen.cc:411-445 | No entry is recorded twice if and only if no simple path ends at two equal edges that lead off it |
| RepeatedEntries.EqualEdges | utils/print-introspected-doxygen.cc:456-530 | Equal edges between two types come exactly from a pair aggregated twice, or from a descendant that is aggregated as well |
| RepeatedEntries.EntriesRepeatAtDoubleLinks | utils/print-introspected-doxygen.cc:411-445 | By the registered types: no entry is recorded twice if and only if no simple path from the root leads to a type linked twice to a type off the path |
| TypicalAggregations.TypicalPairIsListedTwice | utils/print-introspected-doxygen.cc:565-567 | The program's own list links nodes twice to one protocol |
| TypicalAggregations.TypicalOutputRepeats | utils/print-introspected-doxygen.cc:538-592 | So once a root leads to a node by a path clear of that protocol, the output holds an entry twice, whatever else is registered |
| WorkerPool.StepDecreases | test.py:1024-1108 | Every step of every thread decreases one measure of the state; an interrupt leaves it |
| PoolSafety.StartInvariant | test.py:1561-1564 | The start satisfies the invariant of the pool |
| PoolSafety.StepMoves | test.py:1024-1108 | Sending puts one item into the pool; every other step moves items between queues, workers and the collector without losing or copying one |
| PoolSafety.StepKeepsGenuine | test.py:1031-1056 | A job handed back carries its own result, or a break mark that only an interrupt can give it; stop tokens never reach the output queue |
| PoolSafety.StepKeepsCounted | test.py:1845-1848 | Stop tokens are taken only after every job, and one by each worker that stops |
| PoolSafety.StepKeepsInvariant | test.py:1024-1108 | Every atomic step of any thread keeps the invariant: conservation, order of the queue, genuineness and counts |
| PoolRuns.RunKeepsInvariant | test.py:1024-1108 | So does every run, under every interleaving |
| PoolRuns.RunsEnd | test.py:1561-2021 | Apart from interrupts, of which there may be any number, no run takes more than 7 steps a job and 9 a thread |
| PoolRuns.NoEarlyExit | test.py:1031-1032 | No worker stops before every job has been taken from the queue |
| PoolRuns.CollectingProceeds | test.py:1868-1869 | While results are outstanding one is ready or a worker can go on |
| PoolRuns.JoiningProceeds | test.py:2020-2021 | Once all results are in, every worker gets a token and can be joined |
| PoolRuns.CanFinish | test.py:1561-2021 | From every reachable state some continuation ends the run |
| PoolRuns.NoThreadNoResult | test.py:1868-1869 | Without a thread no result ever comes and the main thread waits forever |
| PoolRuns.DeadlockFreedom | test.py:1561-2021 | No reachable state is stuck if and only if a thread was asked for or there is no job |
| PoolOutcome.DoneCollectsEverything | test.py:1868-2021 | At the end both queues are empty, all workers have stopped, each job was collected once and each token spent by one worker |
| PoolOutcome.UninterruptedRunReportsAll | test.py:1868-2013 | Without an interrupt, whatever is counted over the collected jobs comes out the same under every interleaving |
| PoolOutcome.FlagAfterRun | test.py:594-597 | After any run the flag is up if and only if it was before or an interrupt came in the run |
| PoolOutcome.StartsMeansRunning | test.py:1047-1090 | A worker starts a subprocess in exactly the steps after which it runs and before which it did not |
| PoolOutcome.AtMostOneStart | test.py:591-597 | Once the flag is up it stays up, and each worker starts at most the one job it had admitted before |
| PoolOutcome.LaterJobsComeBackAsBreaks | test.py:1038-1041 | A job not yet inspected when the flag goes up is handed back as a break in every continuation |
| PoolOutcome.InterruptedJobsComeBackAsBreaks | test.py:1038-1041 | If an interrupt comes anywhere in a run, every job that no worker had inspected by then is collected as a break, and once if the run finishes |
| PoolBreaks.InspectedJobsReport | test.py:1038-1108 | A job inspected before any interrupt is collected with its own result, whatever comes after |
| PoolBreaks.BreaksExactly | test.py:1031-1108 | In a run with an interrupt a collected job is a break if and only if no worker had inspected it when the first interrupt came; all others carry their own results |
| PoolOutcome.ResultsInOrder | test.py:1868-1869 | Along every run results are collected in the order in which workers handed them back |
| Accounting.LedgerCounts | test.py:1868-1904 | Each counter is the number of collected jobs with that verdict |
| Accounting.CountsByFields | test.py:1883-1904 | Of the jobs neither interrupted nor skipped, return code 0 counts as passed, 1 as failed, 2 as a valgrind error and every other code as crashed; skipped are those to be skipped and not interrupted |
| Accounting.FailedJobsCount | test.py:1883-1888 | A job occurs among the failed jobs (return code not 0 ? 1 : 0) + (suite not cleared by its result file ? 1 : 0) times, and a skipped one never |
| Accounting.EntriesByFields | test.py:1883-2013 | How often a job is listed as failed, by its fields: once for a return code other than 0, once for a suite unless its code is 0, 1 or 2 and its result file clears it; never if interrupted or skipped |
| Accounting.VerdictsAddUp | test.py:1868-1904 | Passed, failed, valgrind, crashed, skipped and interrupted make up all collected jobs |
| Accounting.AllGood | test.py:2130-2133 | Passed and skipped together reach the total exactly if no job did otherwise |
| Accounting.PassedYetListed | test.py:1986-2013 | A job counts as passed and is listed as failed exactly if it is a suite that returned 0 without being cleared |
| TestRunner.TestRun.SigintHook | test.py:594-597 | Raises the flag, whether or not it is up, and changes nothing else: the step Interrupt |
| TestRunner.TestRun.WorkerAct | test.py:1024-1108 | One action of a worker on the shared queues is the step of the state machine |
| TestRunner.TestRun.Account | test.py:1868-2013 | The branches on return code and result file, with their pushes and pops: each counter grows exactly for the codes that are its own, and the job is listed as often as its fields call for |
| TestRunner.TestRun.ReadResult | test.py:1986-2013 | A suite is left in the list unless its return code is 0, 1 or 2 and its result file clears it |
| TestRunner.TestRun.CollectNext | test.py:1868-1871 | Takes the oldest result and accounts for it, break or not |
| TestRunner.BooksByFields | test.py:1868-2013 | At the end of any run each counter is the number of collected jobs with the codes that are its own, and each job is listed as often as its fields call for; without an interrupt the numbers are those of the plan |
| TestRunner.TestRun.RunTests | test.py:1561-2133 | At the end of any interleaving every job is collected once; passed, failed, valgrind and crashed count the collected jobs that return 0, 1, 2 and anything else, and with skipped and interrupted ones they add up; each job is listed as failed as often as its code and result file call for; the exit code is 0 exactly if every job was skipped or returned 0; the flag is up exactly if an interrupt came, and if none came counters and list follow from the plan alone |
| TestRunner.FailedJobsUninterrupted | test.py:1883-2013 | Without an interrupt that number is settled by the job's return code and result file alone |
| LoadOrder.LoadedMeansShortChains | bindings/python/ns__init__.py:420-431 | A library is loaded within `k` steps exactly if nothing below it is missing and no dependency chain below it has length `k` |
| LoadOrder.LoadedAtStep | bindings/python/ns__init__.py:433-448 | Step `k` loads exactly the libraries whose longest chain has length `k` |
| LoadOrder.AcyclicLoads | bindings/python/ns__init__.py:433-448 | Without cycles and missing libraries as many steps as libraries are enough |
| LoadOrder.CycleNeverLoads | bindings/python/ns__init__.py:433-448 | A library on a cycle is never loaded |
| LoadOrder.LoadsIffWellFounded | bindings/python/ns__init__.py:433-448 | The pending list empties at some step if and only if there is neither a cycle nor a missing library |
| LibraryLoader.LoadSorter.ModulesThatCanBeLoaded | bindings/python/ns__init__.py:420-431 | The pending libraries whose dependencies are all current, in pending order |
| LibraryLoader.LoadSorter.Move | bindings/python/ns__init__.py:440-445 | The loop that moves libraries between the lists it changes in place |
| LibraryLoader.StaysClosed | bindings/python/ns__init__.py:440-445 | After any part of a step, what is current is closed under dependencies |
| LibraryLoader.LoadSorter.DependencyOrder | bindings/python/ns__init__.py:433-448 | Recursion stops after the first step that leaves nothing pending, or runs out of stack |
| LibraryLoader.SortToDependencies | bindings/python/ns__init__.py:450-455 | Succeeds exactly if the stack suffices for the steps needed, and yields their concatenation |
| LibraryLoader.SortedIsLoadOrder | bindings/python/ns__init__.py:450-455 | The result holds every library once, each after all its dependencies; step `k` is the libraries of longest chain `k` in the order of the keys |
| LibraryLoader.EnoughFrames | bindings/python/ns__init__.py:446-448 | With more stack frames than libraries, success means exactly that there is neither a cycle nor a missing library |
| LibraryLoader.StuckForever | bindings/python/ns__init__.py:433-448 | Otherwise some step loads nothing and from then on the same libraries stay pending |
| StyleText.StripOfPadded | utils/check-style-clang-format.py:534 | Stripping takes whitespace off both sides of a trimmed core and nothing else |
| StyleText.ExpandKeepsLayout | utils/check-style-clang-format.py:674 | Expanding tabs keeps every visible character at its column |
| StyleText.ExpandChanges | utils/check-style-clang-format.py:670-674 | Expansion changes a line exactly if it has a tab |
| StyleText.TabFillsToFour | utils/check-style-clang-format.py:128 | A tab becomes one to four blanks, up to the next column that is a multiple of four |
| StyleText.LineEndingRestarts | utils/check-style-clang-format.py:674 | A line ending starts the columns over |
| StyleText.UniversalEndings | utils/check-style-clang-format.py:525-526 | Each of the three line endings is read as one newline |
| StyleText.ReadKeepsText | utils/check-style-clang-format.py:525-526 | Reading a file as lines keeps all of its text but the kind of its line endings |
| StyleText.ReadUndoesWrite | utils/check-style-clang-format.py:525-526 | Lines written out are read back as they are |
| StyleFixer.SourceFile.CheckManually | utils/check-style-clang-format.py:501-563 | A file is compliant if and only if every line complies that is a guard or has no "// clang-format off" before it without a later "// clang-format on"; the verdict is the same for all settings of fix and verbose in spite of the early exit; the file is changed only when fixing what does not comply, to its fixed lines; diagnostics are complete, or those of the first offending line |
| StyleFixer.EnabledExactly | utils/check-style-clang-format.py:528-541 | Checking is enabled after some lines if and only if every guard "// clang-format off" among them is followed by a guard "// clang-format on" |
| StyleFixer.VerdictByGuards | utils/check-style-clang-format.py:528-550 | So a file is compliant if and only if every line complies that is a guard or where checking is not switched off |
| StyleFixer.FixedByGuards | utils/check-style-clang-format.py:543-551 | Fixing changes exactly those lines that do not comply among those, each to what its check makes of it |
| StyleFixer.DiagnosticsAre | utils/check-style-clang-format.py:548-552 | What is reported is exactly what the checks say of those lines |
| StyleFixer.CompliantIsUntouched | utils/check-style-clang-format.py:558-561 | A file with nothing to fix is left as it is |
| StyleFixer.InspectLines | utils/check-style-clang-format.py:528-556 | The loop over the lines with its guards and its early exit yields the verdict, the fixed lines and the diagnostics |
| StyleGuarantees.WhitespaceIsHonest | utils/check-style-clang-format.py:617-647 | The whitespace check calls a line compliant exactly if it would not change it |
| StyleGuarantees.WhitespaceFixKeepsText | utils/check-style-clang-format.py:635 | The whitespace fix takes all whitespace off the end of a line and puts a newline there, and nothing else |
| StyleGuarantees.WhitespaceIsReported | utils/check-style-clang-format.py:637-645 | Trailing whitespace is reported on its line, one column behind the text as it is shown |
| StyleGuarantees.TabsIsHonest | utils/check-style-clang-format.py:650-682 | So does the tabs check |
| StyleGuarantees.TabIsReported | utils/check-style-clang-format.py:670-680 | A tab is reported on its line at the column of the first tab |
| StyleGuarantees.VerdictMeansNoChange | utils/check-style-clang-format.py:543-556 | A file is compliant if and only if fixing would leave every line as it is |
| StyleGuarantees.WhitespaceFixIsIdempotent | utils/check-style-clang-format.py:617-647 | A second whitespace fix finds the file compliant and leaves it alone |
| StyleGuarantees.EnabledShrinks | utils/check-style-clang-format.py:528-541 | Lines enabled by the guards after expansion were enabled before |
| StyleGuarantees.ExpansionCanMakeAGuard | utils/check-style-clang-format.py:533-541 | The converse fails: a comment with a tab can become a guard that disables the next line |
| StyleGuarantees.SameLinesEnabled | utils/check-style-clang-format.py:533-541 | The same lines stay enabled if and only if expansion makes no enabled line a guard that disables |
| StyleGuarantees.TabsFixIsIdempotent | utils/check-style-clang-format.py:650-682 | A second tabs fix finds the file compliant and leaves it alone |
| StyleGuarantees.TabsFixKeepsAppearance | utils/check-style-clang-format.py:538-541 | Guarded lines stay identical; others lose their tabs and keep every visible character at its column |
| StyleGuarantees.BothFixed | utils/check-style-clang-format.py:339-365 | After the whitespace and tabs passes no line has trailing whitespace and no enabled line has a tab |
| StyleGuarantees.NoTrailingSpaceMeans | utils/check-style-clang-format.py:635 | Such a line ends in a newline with neither blank nor tab nor another line ending before it |
| StyleGuarantees.FixedFilePasses | utils/check-style-clang-format.py:339-365 | Such a file passes both checks and fixing it again changes nothing |
| StyleGuarantees.BothKeepText | utils/check-style-clang-format.py:339-365 | Both passes keep every visible character of every line, up to its trailing whitespace, at its column |
| StylePasses.IncludeFixShortens | utils/check-style-clang-format.py:597-603 | A fixed include line comes out shorter |
| StylePasses.IncludeIsHonest | utils/check-style-clang-format.py:566-614 | The include check calls a line compliant exactly if it would not change it, whatever headers exist |
| StylePasses.FindFiles | utils/check-style-clang-format.py:213-224 | Each pass has its own list: exactly the files whose names it covers, in order |
| StylePasses.CheckFiles | utils/check-style-clang-format.py:375-435 | A pass succeeds if it finds nothing or fixes what it finds; it changes each file of its list to its fixed form, or none |
| StylePasses.CheckStyle | utils/check-style-clang-format.py:276-372 | The four passes in order, each over its own list: in check mode nothing changes and success means that each file complies by its text, outside guards, with every selected check that covers it; in fix mode the files become what the passes make of them |
| StylePasses.WhitespaceVerdict | utils/check-style-clang-format.py:339-350 | A file passes for whitespace if and only if no line has trailing whitespace, guards or not |
| StylePasses.TabsVerdict | utils/check-style-clang-format.py:354-365 | A file passes for tabs if and only if no line has a tab but where a guard has switched checking off |
| StylePasses.PassesInOrder | utils/check-style-clang-format.py:312-365 | In a fixing run each file gets the selected passes that cover it, one after the other, each on what the one before left |
| StylePasses.FixThenCheckPasses | utils/check-style-clang-format.py:434-435 | After a fixing run with any selection of passes the selected whitespace and tabs checks pass, and fixing those again changes nothing |
| IncludeFix.IncludeVerdict | utils/check-style-clang-format.py:587-597 | A line offends if and only if its text can be read as including by the prefix a header, the longest one possible, that lies beside the file |
| IncludeFix.IncludePassVerdict | utils/check-style-clang-format.py:312-322 | A file passes for include prefixes if and only if no line includes by the prefix a header beside the file but where a guard has switched checking off |
| IncludeFix.IncludePassRespectsGuards | utils/check-style-clang-format.py:312-322 | Where a guard has switched checking off the pass leaves include lines alone |
| IncludeFix.IncludeIsReported | utils/check-style-clang-format.py:605-612 | An offending line is reported on its line at the column of the prefix |
| IncludeFix.ReplaceFirst | utils/check-style-clang-format.py:599 | Replacing takes the first occurrence and goes on behind it |
| IncludeFix.FixLeaves | utils/check-style-clang-format.py:598-603 | The fixed text is the header without the prefix in quotation marks and the rest, with the same name shortened there too and all brackets turned into quotation marks |
| IncludeFix.FixedIncludeOffendsAgain | utils/check-style-clang-format.py:597-603 | For every offending line: the fixed line includes by the prefix again if and only if its header begins with it once more, and offends again if and only if moreover the header it now names lies beside the file |
| IncludeFix.NextHeader | utils/check-style-clang-format.py:597-603 | If neither header nor rest is quoted, the header it now names is the old one without the second prefix |
| IncludeFix.TwoPrefixesTakeTwoFixes | utils/check-style-clang-format.py:597-603 | `ns3/ns3/x.h` takes two fixes |
| IncludeFix.OneFixIsEnough | utils/check-style-clang-format.py:528-563 | One fix makes a file compliant if and only if no line that offends in it includes a header that begins with the prefix once more and after the fix lies beside the file |
| IncludeFix.OffendsAfterFix | utils/check-style-clang-format.py:533-556 | A fix changes no guard, so the same lines are inspected after it, and those that offend are those fixed ones that need another |
| IncludeFix.FixingEnds | utils/check-style-clang-format.py:597-603 | Fixing a file over and over makes it compliant, after no more fixes than it has characters |
| Welford.Accumulate | utils/bench-scheduler.cc:358-362 | If mean and second moment are exact for the samples so far, or there are none yet, they are exact with one sample more |
| Welford.StepDescribes | utils/bench-scheduler.cc:347-369 | An update keeps mean and sum of squared deviations exact; the first one does so from any initial mean, so counting the first result twice does no harm |
| Welford.Log | utils/bench-scheduler.cc:334-381 | With at least two results, all six fields end with the exact mean and the exact sum of squared deviations, and no square root is taken of a negative number |
| Welford.MeanMinimizesDeviations | utils/bench-scheduler.cc:346-372 | Moving the centre from the mean by `d` adds exactly `n * d * d`: no other centre has smaller deviations |
| Welford.MomentBySquares | utils/bench-scheduler.cc:342-344 | The result is that of the formula it avoids, sum of squares less `n` times the square of the mean |
| Timeline.TimelineDataRange.Search | utils/grid.py:113-130 | The loop ends at the place of a bisection, for any list: in ordered ranges a containing range or -1 if there is none; in disjoint ranges what trying them all finds |
| Timeline.TimelineDataRange.GetRanges | utils/grid.py:147-163 | For any list, the slice between the two places found |
| Timeline.TimelineDataRange.GetRangesBounds | utils/grid.py:165-181 | Its bounds, cutting out the same window |
| Timeline.FindIsLocate | utils/grid.py:113-130 | In disjoint ranges bisection finds what a linear search does |
| Timeline.FindsInOrder | utils/grid.py:154-155 | In ordered ranges, which may touch or overlap, the start of a window is not found behind its end |
| Timeline.OrderedWindowIsComplete | utils/grid.py:154-163 | In ordered ranges every range that meets the window is returned if and only if the range before the one found for the start ends too early and the range after the one found for the end starts too late, or, with neither found, none lies strictly inside |
| Timeline.InsideIsKept | utils/grid.py:158-163 | In ordered ranges, as soon as one end is found, every range strictly inside the window is returned |
| Timeline.WindowIsSound | utils/grid.py:162-163 | In ordered ranges, if both ends are found, nothing is returned that does not meet the window |
| Timeline.WindowKeeps | utils/grid.py:147-163 | In disjoint ranges one end in a range is enough for nothing to be left out |
| Timeline.WindowIsComplete | utils/grid.py:156-157 | In disjoint ranges every range that meets the window is returned if and only if an end lies in a range or no range lies strictly inside |
| Timeline.RangeInsideIsLost | utils/grid.py:156-157 | A single range inside a window is lost |
| Timeline.TouchingRangesAreLost | utils/grid.py:162-163 | Of three ranges that touch where a window starts and ends, the outer two are lost |
| Timeline.WindowIsExact | utils/grid.py:154-163 | In ordered ranges the list returned is that of the ranges that meet the window if and only if none is left out and the guess of the branch taken is right: first range not before the start, last range not after the end |
| Timeline.TimelineEvent.Search | utils/grid.py:217-234 | The loop ends at the place of a bisection: in ordered events an event at that time or the place to insert one; with distinct times, the number of earlier events |
| Timeline.TimelineEvent.GetEvents | utils/grid.py:244-253 | For any list, the slice from the place of the start to the place of the end and one more |
| Timeline.TimelineEvent.GetEventsBounds | utils/grid.py:255-264 | The bounds of the same window |
| Timeline.PlaceIsRight | utils/grid.py:223-234 | Bisection ends at a place for the key; with distinct times it is determined: the number of earlier events |
| Timeline.EventsOfWindow | utils/grid.py:244-253 | All events of the window are returned and the next later one exactly if no event falls on the end; a window turned round yields at most that one |
| Timeline.InsideIsReturned | utils/grid.py:244-253 | In ordered events, with repeated times as well, every event strictly inside is returned |
| Timeline.LosesNothing | utils/grid.py:244-253 | In ordered events a window loses no event if and only if the event before those returned is too early and the one after them too late |
| Timeline.SimultaneousEventsAreMissed | utils/grid.py:223-234 | Of several events at one time a window of that time returns one |
| Timeline.WindowsReturnAll | utils/grid.py:244-253 | For ordered events: every window returns all its events if and only if no two happen at the same time |
| ScaleTicks.ScaleRenderer.Layout | utils/grid.py:985-999 | For a stretch over 1 the step is the power of ten below it that is at least a tenth of it; for 1 it is a tenth; below it is 1; it is 10 or more exactly for a stretch over 10 |
| ScaleTicks.StepIsUnique | utils/grid.py:985-996 | Only one power of ten is such a step |
| ScaleTicks.ScaleRenderer.DrawRow | utils/grid.py:1033-1037 | Draws the multiples of a step after the lower and up to the upper bound, each placed in proportion inside the width; fails exactly for a step below one |
| ScaleTicks.ScaleRenderer.Draw | utils/grid.py:1022-1056 | Draws the marks of the step and of its tenth; gets through exactly for a step of 10 or more, and otherwise fails at the second row or, below one, at the first |
| ScaleTicks.MarksAreSubMarks | utils/grid.py:1048-1052 | Every mark is also a mark of the second row |
| ScaleTicks.MarksAreMultiples | utils/grid.py:1023-1033 | The marks are exactly the multiples of the step in the half-open stretch |
| ScaleTicks.MarksAscend | utils/grid.py:1033-1034 | In increasing order, each once |
| ScaleTicks.MarkCount | utils/grid.py:985-1033 | With the step laid out for the stretch there is at least one mark and at most ten |
| LargeTransfer.BufferRepeats | examples/tcp/tcp-large-transfer.cc:51-56 | A buffer can be used over and over if and only if its size is a multiple of 26 |
| LargeTransfer.LettersAreTheAlphabet | examples/tcp/tcp-large-transfer.cc:106-110 | The stream is the alphabet in small letters, over and over |
| LargeTransfer.LossShows | examples/tcp/tcp-large-transfer.cc:51-52 | Lost bytes show at every later place unless whole alphabets were lost |
| LargeTransfer.PieceContinues | examples/tcp/tcp-large-transfer.cc:227-237 | Whatever part of a write is accepted, the stream goes on where it was |
| LargeTransfer.Sender.FillBuffer | examples/tcp/tcp-large-transfer.cc:106-110 | Fills the buffer with the letters |
| LargeTransfer.Sender.StartFlow | examples/tcp/tcp-large-transfer.cc:210-219 | Starting already writes: with bytes left and room something is accepted unless the socket refuses, and it stops only when all is accepted, no room is left or the socket refuses; the socket is closed exactly if all was accepted |
| LargeTransfer.Sender.WriteOnce | examples/tcp/tcp-large-transfer.cc:226-241 | One write offers the next piece of the buffer: from the place where the stream is, and as much as the end of the buffer, the rest of the 2000000 bytes and the room allow |
| LargeTransfer.Sender.WriteUntilBufferFull | examples/tcp/tcp-large-transfer.cc:222-243 | For any room and any accepted amounts: what was accepted is the beginning of the alphabet stream, every write is the next piece, no 32-bit sum overflows, the total is never exceeded, a call with room makes progress or is refused, it stops only when all is accepted, no room is left or the socket refuses, and the socket is closed exactly when all is accepted |
| LargeTransfer.Sender.Transfer | examples/tcp/tcp-large-transfer.cc:214-243 | After any sequence of callbacks with any room, none included, the accepted bytes are the beginning of the stream, every write was the next piece, the sender has not stopped before all was accepted, no room was left or the socket refused, and the socket has been closed exactly if all 2000000 bytes were accepted; a socket that never refuses gets everything after enough callbacks with room |
| Jain.VariationIs | examples/tcp/dctcp-example.cc:188-197 | The count times the sum of squares exceeds the square of the sum by the squared differences of all pairs |
| Jain.SumsCompare | examples/tcp/dctcp-example.cc:188-197 | Sum of squares <= square of the sum <= count times sum of squares, equal exactly for one active flow and for equal flows |
| Jain.IndexRange | examples/tcp/dctcp-example.cc:183-197 | Unless all counters are zero the index lies in [1/n, 1], and is 1/n exactly for a single active flow and 1 exactly for equal flows |
| Fairness.LastProductDecides | examples/tcp/dctcp-example.cc:188-197 | No 64-bit sum or product on the way wraps if and only if count times sum of squares does not |
| Fairness.SmallCountersFit | examples/tcp/dctcp-example.cc:188-211 | Nothing wraps while count times largest counter fits into 32 bits |
| Fairness.DefaultWindowFits | examples/tcp/dctcp-example.cc:285-341 | Up to 20 flows of 125000000 bytes are within that bound |
| Fairness.PrintedIndexIsExact | examples/tcp/dctcp-example.cc:197-211 | Where nothing wraps the printed index is Jain's, and not a number exactly if all counters are zero |
| Fairness.NoNumberExactly | examples/tcp/dctcp-example.cc:197 | There is no number if and only if the count times the sum of squares is a multiple of 2^64: not a number if the square of the sum is one as well, infinity if it is not |
| Fairness.LoneFlowIsInfinite | examples/tcp/dctcp-example.cc:207-211 | Among twenty flows a single one of 2^31 bytes has an infinite index |
| Fairness.PrintedIndexIsRight | examples/tcp/dctcp-example.cc:197-211 | The printed index is Jain's if and only if there is a number and wrapping cuts both terms of the fraction in proportion |
| Fairness.EqualFlowsPrintOne | examples/tcp/dctcp-example.cc:197 | Equal flows print 1 whenever there is a number, wrapped or not |
| Fairness.WrappedYetRight | examples/tcp/dctcp-example.cc:188-197 | Ten flows of 2^32 + 1 bytes wrap and still print 1 |
| Fairness.LargeCountersWrap | examples/tcp/dctcp-example.cc:197 | In a group of any size, 10 and 20 among them, a flow of 2^32 bytes beside idle ones leaves no index |
| Fairness.CountersCount | examples/tcp/dctcp-example.cc:126-141 | From zero each counter counts the bytes of its own flow modulo 2^64 |
| Fairness.TotalsCount | examples/tcp/dctcp-example.cc:126-141 | From zero the counters of a group add up to the bytes of all its packets modulo 2^64 |
| Fairness.BitsCountBothGroups | examples/tcp/dctcp-example.cc:229-250 | The aggregate of two groups is eight bits for every byte either received, modulo 2^64 |
| Fairness.NextSums | examples/tcp/dctcp-example.cc:191-195 | Sums cut down to 64 bits at every step are the exact sums cut down once |
| Fairness.Counters.TraceS1R1Sink | examples/tcp/dctcp-example.cc:126-129 | Adds a packet to the counter of its flow in 64 bits |
| Fairness.Counters.TraceS2R2Sink | examples/tcp/dctcp-example.cc:132-135 | Likewise for the second group |
| Fairness.Counters.TraceS3R1Sink | examples/tcp/dctcp-example.cc:138-141 | Likewise for the third group |
| Fairness.Counters.InitializeCounters | examples/tcp/dctcp-example.cc:144-158 | Zeroes all counters of the three groups |
| Fairness.Counters.GroupFairness | examples/tcp/dctcp-example.cc:188-197 | The loop in wrapping arithmetic yields the index, and the average, of the exact sums cut down to 64 bits |
| Fairness.AverageIsClose | examples/tcp/dctcp-example.cc:196 | The printed average is below the exact one by less than eight bits over the window |
| Fairness.Counters.PrintFairness | examples/tcp/dctcp-example.cc:185-252 | The three averages, the three indices and the two aggregates are those of the right groups |

## Left out

- Uniquefy and GetNoTypeIds: sorting and removing repetitions happen on a copy that is thrown away, so there is no effect to model.
- RepeatedEntries.EntriesRepeatAtDoubleLinks: supposes that type names, and the attribute names of a type, are distinct, have no slash and are not `[i]`, and that attribute names do not begin with `$`; and it is about one gathering, while different roots may repeat entries as well.
- TypicalAggregations.GetTypicalAggregations: the static variable that makes later calls return the first result, and the channel object that is created to be among the roots; the roots are a parameter.
- Introspection.StaticInformation.DoGather: its three loops and the push and pop around each recursive call are methods of their own here.
- Introspection.TypeDatabase.IsChildOf: descent between types is an arbitrary relation that relates no type to itself; the TypeId queries come from the simulator core, which is not part of this model.
- TestRunner.TestRun.RunTests: a run is a given interleaving of atomic actions; taking, inspecting, launching, finishing and handing back a job are one action each, and jobs are taken to finish without an exception.
- Subprocesses, valgrind, result files, printed and XML output, option parsing and the choice of suites in `test.py`; a job's return code and whether its result file clears it are inputs.
- Library file search, version selection, reading the linked libraries and loading them in `ns__init__.py`; the dependency map is an input, with a library's dependency on itself already removed.
- LibraryLoader.SortToDependencies: the depth of Python's stack is a parameter that counts only the frames of the recursion.
- LibraryLoader.LoadSorter.DependencyOrder: the dictionary of steps is a sequence indexed by step number, and is new for each call (the source's default argument would be shared by a second call).
- StylePasses.CheckStyle: what clang-format does with a file, and which names each pass covers, are arbitrary functions; walking directories and the process pool are left out, and no file is listed twice.
- StyleFixer.SourceFile.CheckManually: a diagnostic is its place and the line shown, without the wording; decoding errors are not modelled.
- IncludeFix.FixingEnds: whether a header exists does not change between fixes.
- Welford.Log: over real numbers; rounding, the square root itself, timing and table output are left out.
- Timeline.TimelineDataRange and Timeline.TimelineEvent: `sort` is a library call with a comparator that Python 3 does not accept; being in order is a condition of the statements instead, and `int((l + u) / 2)` is the whole quotient.
- ScaleTicks.ScaleRenderer.Draw: lines and text; `draw` is not modelled before a first `layout`.
- Legends, mouse handling and the other renderers of `grid.py`.
- LargeTransfer.Socket.Send: a socket that accepts zero bytes of a write is not modelled; the source's loop would ask it again without end.
- LargeTransfer.Sender.WriteUntilBufferFull: later calls after completion close the socket again, as in the source; the effect of that on the socket is not part of this model.
- Fairness.Counters.PrintFairness: output formatting and rounding to doubles; the counter arrays have the sizes the source reserves.
- Topology, configuration and the remaining example scripts, which only call into the simulator.
