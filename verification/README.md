# Verified models of the ns-3 tooling

This project models the self-contained algorithms among the scripts and utilities of an ns-3
tree and proves properties of them: the parallel test runner, the collector of configuration
paths, the unified-diff reader, writer and rewriter, the tab and white-space fixers, the scheduler
benchmark with its statistics, the timeline index, and the allocation of UEs to base stations.
`dafny verify dfyconfig.toml` checks all of it.

| files | what they model |
|---|---|
| `TestPool`, `TestPoolSafety`, `TestPoolLiveness`, `TestPoolResults`, `TestPoolSignal`, `TestPoolLaunches`, `TestPoolCounters` | `test.py`: main, workers, two queues and the SIGINT flag as a step function; a schedule is any sequence of actions |
| `TestRunner` | the same pool as objects changed in place: `Job` and its setters, the queues, the counters; each method refines one step |
| `TypeGraph`, `GraphEdges`, `SimpleWalks`, `ConfigPaths`, `RepeatedPaths` | `StaticInformation` of `print-introspected-doxygen.cc`: the type graph, its simple walks, the recursive collector, and when it records a path twice |
| `Text`, `Decimal`, `PatchFormat`, `PatchText`, `PatchReading`, `PatchRoundTrip`, `PatchRewrite`, `PatchReprint` | `check-style.py` on values: recognising, parsing, printing and rewriting patches, and printing them again |
| `PatchObjects` | the same on the script's objects, with line objects shared between the two views of a chunk |
| `StyleText`, `StyleFixers`, `StyleFiles`, `StyleMeaning` | `check-style-clang-format.py`: strip and expandtabs, the two fixers on lines, and on files; what they do told by characters and guard lines |
| `BenchRun`, `Welford` | `bench-scheduler.cc`: the self-rescheduling event population, and the one-pass statistics |
| `Timeline` | `grid.py`: binary searches and the windows they cut out |
| `UeAllocation` | `scenario-three.cc`: blocks of UEs per base station, remainder included |
| `Options`, `Places` | an optional value, and places in a list, for all of these |

## What holds and what does not

* **Pool.** Every state keeps one invariant: the input queue is the unread tail of what main has
  put, in order, and the ids taken from it are, as a multiset, those in the workers' hands, in the
  output queue and collected. A measure falls with every step of a thread, so no run is infinite;
  some thread can always move until main is done. The second half is false without workers: a
  negative `--jobs` starts none, and main then waits for the first result for ever. The exact
  condition is proved (`EveryRunFinishesIff`, `NoWorkerWaitsForEver`). What a SIGINT
  changes is settled at the moment it arrives: the jobs no worker had let past the check come back
  interrupted, and only those.
* **Configuration paths.** The stack called `m_alreadyProcessed` holds ancestors, not all visited
  types, so the traversal enumerates simple walks. `Gather` calls a helper that should remove
  duplicates but receives a copy (`utils/print-introspected-doxygen.cc:423-429`); the model follows
  the code and removes none. A type with the same edge twice repeats every path across it, and where
  names allow a path to be read back this is the only reason for a repeat
  (`RecordedOnceIffNoTwin`). Distinct names without slashes suffice for that
  (`DistinctNamesSuffice`); a slash in a name can make two walks spell one path (`NamesCanClash`).
  Lines 566 and 568 of that file record the same aggregation twice (`AggregatedTwice`).
* **Patches.** Printing and parsing are inverse exactly on the printable patch sets. Restoring
  trailing blanks can leave that set: a destination line `++` that becomes `++ ` prints like a file
  header (`RewriteCanBreakRoundTrip`). It becomes that exactly when the source line paired with it is
  `++ ` at its turn, which is not always its original text (`HeaderByTurn`, `NoHeaderByTurn`):
  context lines are shared by both views, so an earlier pair may have put a blank behind it. The
  exact condition is `RewrittenSetPrintableIff`. For the same reason the pass may change the source
  side; it does exactly when a context line is one blank short of the source line it is paired with
  (`SourceUnchangedIff`). A second pass may then change more (`SecondPassCanChange`), exactly when a
  pair came before the one that extends its source line (`RewritePatchesTwice`). A chunk whose
  destination list runs short ends the whole pass, not only that chunk.
* **Fixers.** Expanding a tab can turn an ordinary line into a guard, which disables lines in the
  next pass (`ExpandMakesGuard`); idempotence holds because those lines are already clean. Files are
  read in text mode, so a tab fix drops every carriage return of the file, guarded lines included
  (`ReturnsKeptIff`, `GuardedReturnDropped`). The bytes of a guarded line stay exactly when
  there is nothing to fix or no carriage return in that line (`GuardedBytesKeptIff`).
* **Timeline.** `get_ranges` agrees with the filter it stands for exactly under `Exact`, and
  `get_events` exactly when an event happens at the end of the window or none follows it; both fail
  on small inputs (`RangesCanBeWrong`, `EventBeyondWindow`).

## Model

| member | source | states |
|---|---|---|
| TestPoolSafety.StepKeepsInv | test.py:988-1056 | no step of main, of a worker or of the signal hook breaks the pool invariant: queue order, conservation of jobs, shape of every job in its place, counters equal to a fold over what was collected |
| TestPoolSafety.RunKeepsInv | test.py:1428-1860 | the invariant holds after every schedule of any length |
| TestPoolLiveness.SentinelsMatchLiveWorkers | test.py:1694-1721 | once main collects, the sentinels still queued are as many as the workers that have not taken one, and no real job is queued behind a sentinel |
| TestPoolLiveness.StepDecreases | test.py:988-1056 | every step of a thread lowers the measure; a signal leaves it alone |
| TestPoolLiveness.RunsAreBounded | test.py:1428-1860 | however threads interleave and signals arrive, the threads take at most a fixed number of steps, so no run is infinite |
| TestPoolLiveness.NeverStuck | test.py:1720-1723 | with a worker, or with nothing to do, the only state in which no thread can move is the one where main is done: all its blocking gets and joins succeed |
| TestPoolLiveness.EveryRunFinishesIff | test.py:1417-1431 | every run that cannot go on has finished, if and only if there is at least one worker or no job |
| TestPoolLiveness.NoWorkerWaitsForEver | test.py:1417-1431 | a concrete run that fails: one job, no worker, main waiting for a result that never comes |
| TestPoolLiveness.DoneState | test.py:1856-1860 | at the end every worker has returned on a sentinel, both queues are empty, and the collected ids are exactly those dispatched, each once |
| TestPoolResults.EveryJobInOnePlace | test.py:1450-1484 | in every reachable state each job put so far is in exactly one of input queue, a worker's hands, output queue, collected |
| TestPoolResults.OnlySentinelsStopWorkers | test.py:990-1005 | a worker only stops on a sentinel, and every queued job marked as a break is one; a job marked by a worker never gets back there |
| TestPoolResults.FinalReport | test.py:1713-1754 | the five counters and the interrupted jobs add up to the dispatched ones, and the exit code is 0 exactly when nothing was interrupted and every job passed or was skipped |
| TestPoolResults.TallyIgnoresOrder | test.py:1720-1754 | two collections over the same ids give the same counters in whatever order results arrive |
| TestPoolResults.TallyWithoutSignal | test.py:1720-1754 | without a signal the counters are those of the plan folded in dispatch order, for every interleaving and number of workers |
| TestPoolCounters.CountersAre | test.py:1722-1754 | whatever the results and their order, each counter is the number of results of its sort: skipped, or run with code 0, 1, 2 or another; interrupted ones are of no sort |
| TestPoolCounters.CountersOfPlan | test.py:1713-1754 | at the end of every run each counter is the number of jobs of the plan of its sort, without those that came back interrupted, of which there are none without a signal |
| TestPoolCounters.CountersByName | test.py:1722-1754 | the same, spelled out for the five counters by skip mark and exit status |
| TestPoolCounters.CountersWithoutSignal | test.py:1720-1754 | without a signal the counters are those of the whole plan |
| TestPoolCounters.CountersAfterSignal | test.py:995-1005 | after one they are those of the plan without the jobs not past the check when it came |
| TestPoolCounters.CollectedInOrder | test.py:1720-1723 | results are collected in the order in which workers put them back |
| TestPoolSignal.FirstSignal | test.py:573-576 | at the first signal the jobs split into those past the check, which will report, and the others, which will come back interrupted |
| TestPoolSignal.SignalSettlesReport | test.py:995-1005 | for every run after the first signal: a job is collected as interrupted if and only if no worker had let it past the check when the signal came, skip jobs included, and the final counters are those of the plan without these jobs |
| TestPoolSignal.AtMostOneLaunchAfterSignal | test.py:1002-1036 | after the flag is up each worker launches at most one more command in the rest of the run, and none unless it was past the check already |
| TestPoolSignal.HeldNowhereElse | test.py:988-1056 | the job a worker holds is nowhere else, which is what lets it change the job's fields without a lock |
| TestPoolLaunches.NoCommandTwice | test.py:1022-1039 | no command is started twice under any interleaving |
| TestPoolLaunches.StartedExactlyWhenReported | test.py:1010-1056 | a job's command was started exactly once if the job is reported as neither skipped nor interrupted, and never otherwise |
| TestRunner.Job.SetIsBreak | test.py:868-869 | sets the break mark and nothing else |
| TestRunner.TestRun.SigintHook | test.py:573-576 | raises the flag, which is the signal step of the state machine |
| TestRunner.TestRun.DispatchOne | test.py:1450-1484 | creates and queues the next job of the plan, refining main's step |
| TestRunner.TestRun.StopOne | test.py:1698-1701 | creates and queues the next sentinel, refining main's step |
| TestRunner.TestRun.CollectOne | test.py:1720-1754 | one turn of the collect loop, refining main's step |
| TestRunner.TestRun.CountResult | test.py:1722-1754 | which of the five counters a collected job moves, none for a bounced one |
| TestRunner.TestRun.NoAliases | test.py:988-1056 | the Job object a worker holds is referenced from no other place |
| TestRunner.TestRun.WorkerQueueStep | test.py:990-1056 | taking a job and putting one back, refining the worker's step |
| TestRunner.TestRun.WorkerMoveStep | test.py:995-1015 | the break test, the flag check and the skip test, refining the worker's step |
| TestRunner.TestRun.WorkerChangeStep | test.py:1002-1039 | marking a job or filling in its return code in place, refining the worker's step although the job is shared by reference |
| TestRunner.TestRun.RunTests | test.py:1428-1946 | a whole run under a scheduler that may pick any thread able to move and a signal at any point: it terminates, every thread joined, each of the five counters the number of jobs of the plan of its sort without the interrupted ones, and the exit code as in FinalReport |
| TypeGraph.RankDescends | utils/print-introspected-doxygen.cc:451-454 | following an edge from a type that is not its own ancestor leaves fewer types off the ancestor stack, on every type graph |
| GraphEdges.EdgesAreListed | utils/print-introspected-doxygen.cc:455-532 | the edges of a type are those its table entries give, one each: pointer attributes except to the root class, container attributes, types derived from it, partners in aggregations; attributes first, then children, then aggregations, each in table order |
| GraphEdges.EdgeIff | utils/print-introspected-doxygen.cc:455-532 | an edge is there if and only if some table entry gives it |
| SimpleWalks.WalksAreTheSimpleWalks | utils/print-introspected-doxygen.cc:448-532 | the depth-first traversal meets a walk if and only if it is one of the graph and repeats no type |
| SimpleWalks.WalkStepByStep | utils/print-introspected-doxygen.cc:479-484 | along a walk each type is the target of the edge taken before, and the names are those of the edges |
| SimpleWalks.StepsAreWalk | utils/print-introspected-doxygen.cc:479-484 | whatever can be taken step by step is a walk |
| SimpleWalks.WalksInPreorder | utils/print-introspected-doxygen.cc:448-532 | it meets them in strict depth-first preorder, hence each once |
| SimpleWalks.BeforeIff | utils/print-introspected-doxygen.cc:448-532 | in preorder a walk comes before its continuations, and of two others the one that takes the earlier edge where they part |
| SimpleWalks.PreorderIsUnique | utils/print-introspected-doxygen.cc:448-532 | there is only one list of the same walks in preorder, so the two statements above determine the output |
| SimpleWalks.CutLoops | utils/print-introspected-doxygen.cc:451-454 | every walk can be cut down to a simple one with the same ends, so stopping at ancestors loses no type |
| ConfigPaths.StaticInformation.DoGather | utils/print-introspected-doxygen.cc:447-532 | terminates on every type graph, restores both stacks, and appends exactly the records of the simple walks below the current ancestors |
| ConfigPaths.StaticInformation.Descend | utils/print-introspected-doxygen.cc:479-484 | push, recurse, pop: the stacks are back and the target's records are appended; the ancestor stack stays duplicate-free and as long as the path |
| ConfigPaths.StaticInformation.GetCurrentPath | utils/print-introspected-doxygen.cc:360-370 | spells the path stack |
| ConfigPaths.StaticInformation.HasAlreadyBeenProcessed | utils/print-introspected-doxygen.cc:379-391 | true exactly for ancestors |
| ConfigPaths.StaticInformation.GatherRoots | utils/print-introspected-doxygen.cc:584-593 | gathering from each root in turn appends each root's records, duplicates and all |
| ConfigPaths.StaticInformation.Get | utils/print-introspected-doxygen.cc:393-406 | the recorded paths of one type, in recording order |
| ConfigPaths.PathsToAre | utils/print-introspected-doxygen.cc:393-406 | these are the paths of that type's records, in the order of the records, one each |
| ConfigPaths.RecordedIffSimpleWalk | utils/print-introspected-doxygen.cc:447-532 | from a root, a path is recorded for a type if and only if some simple walk ends at the type and spells the path |
| ConfigPaths.RecordedIffReachable | utils/print-introspected-doxygen.cc:447-532 | a type has a recorded path if and only if any walk at all leads to it |
| ConfigPaths.RecordedInPreorder | utils/print-introspected-doxygen.cc:455-532 | the i-th record is that of the i-th simple walk in preorder |
| RepeatedPaths.RecordedOnceIffNoTwin | utils/print-introspected-doxygen.cc:423-532 | on a well named graph, nothing is recorded twice if and only if no simple walk takes an edge that its type has twice |
| RepeatedPaths.NothingTwiceWithoutRepeats | utils/print-introspected-doxygen.cc:423-532 | so a well named graph in which no type has the same edge twice has every path recorded once |
| RepeatedPaths.DistinctNamesSuffice | utils/print-introspected-doxygen.cc:455-532 | a graph is well named if attributes of one type, and types, have different names without slashes, and attribute names do not begin with "$" nor stand for items |
| RepeatedPaths.SpellInjective | utils/print-introspected-doxygen.cc:360-370 | a path made of such names can be read back: different name lists spell different paths |
| RepeatedPaths.NamesCanClash | utils/print-introspected-doxygen.cc:360-370 | a concrete graph without a repeated edge whose ambiguous names make it record a path twice |
| RepeatedPaths.EqualEdgesRepeatPath | utils/print-introspected-doxygen.cc:505-532 | where a type has the same edge twice, every simple walk across it has a double with the same record, and the output holds duplicates |
| RepeatedPaths.AggregatedTwice | utils/print-introspected-doxygen.cc:566-568 | a concrete graph, a protocol aggregated twice to a node, whose path is recorded twice |
| Text.SplitOfJoin | utils/check-style.py:214-227 | lines written back to back read back as the same lines |
| Text.JoinOfSplit | utils/check-style-clang-format.py:519-540 | the lines read from a text, joined, are that text |
| Text.RawLinesRead | utils/check-style-clang-format.py:597-604 | the lines read are the stored lines, each with its end translated |
| Text.FirstRawLineIs | utils/check-style-clang-format.py:519-520 | a stored line is a text without line ends and one line end |
| StyleMeaning.LineEndsRead | utils/check-style-clang-format.py:519-520 | reading translates each kind of line end to a newline |
| PatchRoundTrip.LineRecognised | utils/check-style.py:368-410 | a printable line, printed, is recognised as itself by the ordered patterns |
| PatchRoundTrip.HeaderReadsBack | utils/check-style.py:302-303 | a printed chunk header parses to the same four numbers |
| PatchText.HeaderParses | utils/check-style.py:370-392 | "@@ -a,b +c,d @@" with anything behind it is read as those four numbers by place value, source before destination |
| PatchText.HeaderOnly | utils/check-style.py:370-370 | and nothing else is a chunk header |
| PatchText.Recognised | utils/check-style.py:368-410 | what every line of a file is, from how it begins |
| PatchText.PrintedHeader | utils/check-style.py:302-304 | the text of a printed chunk header: source position and number of '-' and space lines behind it, then destination position and number of '+' and space lines |
| PatchText.PrintedLine | utils/check-style.py:214-227 | a line prints as its mark, its text and a newline |
| Decimal.ValueIsPlaceSum | utils/check-style.py:248-249 | digits are read by place value |
| Decimal.PrintIsPlain | utils/check-style.py:302-303 | a number prints as digits of that value without a zero in front |
| PatchReading.ParseIsAhead | utils/check-style.py:367-411 | whatever is accepted is read so that each chunk has the text lines up to the next chunk header, and each patch the chunks and the last destination name up to the next file header |
| PatchReading.AcceptedIff | utils/check-style.py:376-411 | lines are accepted if and only if each is of one of the six kinds, with a source name before destination names and chunk headers and a chunk header before text; otherwise the error is that of the first line that does not fit |
| PatchRoundTrip.ParsedIsPrintable | utils/check-style.py:376-411 | whatever is parsed is printable, because the file-header patterns come first |
| PatchRoundTrip.RoundTripIffPrintable | utils/check-style.py:295-411 | printing and parsing give a patch set back if and only if it is printable |
| PatchRoundTrip.ParsePrintParse | utils/check-style.py:356-411 | for every input that parses, parsing its printed form gives the same patch set |
| PatchRoundTrip.FileRoundTripIffPrintable | utils/check-style.py:356-411 | the same law through the lines of a written file |
| PatchRoundTrip.PrintedCountsAreRight | utils/check-style.py:283-304 | a printed header announces the numbers of '-'/space and '+'/space lines that follow it |
| PatchRewrite.OneBlankAtMost | utils/check-style.py:413-429 | rewriting a chunk keeps number, order and kind of its lines; a text gains at most one blank, and only on the destination side |
| PatchRewrite.ExtendsIff | utils/check-style.py:414-426 | one text extends another exactly when it is that text and one space or one tab |
| PatchRewrite.SourceUnchangedIff | utils/check-style.py:418-426 | the source view of a chunk survives if and only if no context line is one blank short of its pair |
| PatchRewrite.TurnTextIs | utils/check-style.py:418-426 | the text a source line has when its turn comes, computed from the chunk as it was before the pass |
| PatchRewrite.DestinationGetsBlankIff | utils/check-style.py:421-426 | in every chunk, a destination line becomes the source line paired with it, as that one is at its turn, exactly when that is it plus one space or tab; where the source view is kept, as it was |
| PatchRewrite.AlignedKeepsSource | utils/check-style.py:418-426 | a chunk whose context lines stand at the same place in both views keeps its source view |
| PatchRewrite.MisalignedChunkChangesSource | utils/check-style.py:418-426 | a concrete chunk whose source view the pass changes |
| PatchRewrite.RewriteTwice | utils/check-style.py:413-429 | a second pass over any chunk changes nothing if and only if no pair's source line is extended by a later pair to one blank more than its destination line then has; so always where the source view is kept |
| PatchRewrite.SecondPassCanChange | utils/check-style.py:413-429 | a concrete chunk that a first pass and then a second one change |
| PatchRewrite.RewritePatchesTwice | utils/check-style.py:413-429 | the same for whole patch sets: only the chunks the pass gets to matter, and a second pass stops where the first did |
| PatchReprint.RewrittenPrintableIff | utils/check-style.py:421-426 | any rewritten chunk is printable if and only if the chunk was and no destination line "++" is paired with a source line that is "++ " at its turn |
| PatchReprint.RewrittenSetPrintableIff | utils/check-style.py:413-429 | any rewritten patch set is printable if and only if it was and no chunk that the pass gets to has such a pair |
| PatchReprint.RoundTripSurvivesIff | utils/check-style.py:356-429 | for every input that parses, the rewritten patch set prints and parses back if and only if there is no such pair |
| PatchReprint.HeaderByTurn | utils/check-style.py:418-426 | a concrete chunk that becomes unprintable although the source line paired with its "++" was itself "++" before the pass |
| PatchReprint.NoHeaderByTurn | utils/check-style.py:418-426 | a concrete chunk that stays printable although that source line was "++ " before the pass |
| PatchReprint.PrintableWithoutBarePlus | utils/check-style.py:413-429 | in particular, a printable patch set without a bare "++" destination line stays printable |
| PatchReprint.RewriteCanBreakRoundTrip | utils/check-style.py:413-429 | a patch set that prints and parses back, whose rewritten form does not |
| PatchRewrite.ChunksRewritten | utils/check-style.py:415-428 | within a patch, a chunk is rewritten exactly when no chunk before it ran short |
| PatchRewrite.PatchesRewritten | utils/check-style.py:415-429 | the pass stops for good at the first chunk that runs short; headers, patches and chunks stay in number and order |
| PatchObjects.PatchChunkLine.AppendToLine | utils/check-style.py:189-195 | appends to the shared line object |
| PatchObjects.PatchChunk.Src | utils/check-style.py:263-272 | the source view, as the chunk's own line objects in order |
| PatchObjects.PatchChunk.Dst | utils/check-style.py:273-282 | the destination view, likewise |
| PatchObjects.PatchChunk.RemoveTrailingWhitespaceChanges | utils/check-style.py:417-428 | the loop over shared line objects does what PatchRewrite says, and fails exactly when the destination list runs short |
| PatchObjects.PatchChunk.Write | utils/check-style.py:295-304 | appends the printed chunk with recomputed counts |
| PatchObjects.Patch.Write | utils/check-style.py:356-365 | appends the printed patch |
| PatchObjects.PatchSet.AddLine | utils/check-style.py:390-409 | a line goes to the current chunk and no other chunk changes |
| PatchObjects.ParsePatchset | utils/check-style.py:367-411 | builds exactly the objects of the parsed value, or reports the error of the first line that raises |
| PatchObjects.RemoveTrailingWhitespaceChanges | utils/check-style.py:413-429 | parses and rewrites the objects in place as PatchRewrite says |
| StyleText.ExpandKeepsLayout | utils/check-style-clang-format.py:633-633 | expansion puts every character of a line at its column and fills each tab with blanks to the next multiple of four |
| StyleText.ExpandKeepsGuard | utils/check-style-clang-format.py:612-621 | a guard line is still the same guard after expansion |
| StyleFixers.GuardStateAfterFix | utils/check-style-clang-format.py:612-622 | a second pass never enables a line that the first had disabled |
| StyleFixers.ExpandMakesGuard | utils/check-style-clang-format.py:612-633 | a concrete line that is no guard and becomes one by expansion |
| StyleFixers.TabsFixed | utils/check-style-clang-format.py:604-639 | the tab fixer is idempotent and leaves nothing to report |
| StyleFixers.GuardedLinesUntouched | utils/check-style-clang-format.py:612-633 | lines under a guard come out as they went in, all others expanded |
| StyleFixers.HasTabsIffChanged | utils/check-style-clang-format.py:624-639 | tabs are reported exactly when fixing changes a line |
| StyleFixers.WhitespaceFixed | utils/check-style-clang-format.py:522-540 | the white-space fixer leaves nothing to report |
| StyleFixers.TabFixKeepsWhitespaceFixed | utils/check-style-clang-format.py:328-342 | tab fixing does not bring trailing white space back |
| StyleMeaning.SpaceIs | utils/check-style-clang-format.py:523-523 | which ASCII characters count as white space |
| StyleMeaning.FixLineIs | utils/check-style-clang-format.py:523-523 | a fixed line is its text up to the last character that is no white space, and a newline |
| StyleMeaning.FixChangesIff | utils/check-style-clang-format.py:523-532 | a line is changed if and only if it lacks its newline or has white space right before it |
| StyleMeaning.WhitespaceFixIs | utils/check-style-clang-format.py:507-540 | a file is reported if and only if it has such a line, and the lines of the fixed file are those texts |
| StyleMeaning.StripIs | utils/check-style-clang-format.py:613-613 | strip takes off white space at both ends and nothing else |
| StyleMeaning.EnabledIff | utils/check-style-clang-format.py:612-618 | formatting is enabled at a line if and only if every guard line before it that says off is followed by one that says on |
| StyleMeaning.TabFixIs | utils/check-style-clang-format.py:604-639 | a line is left alone exactly when it is no guard and formatting is switched off before it, all others are expanded, and tabs are reported exactly when one of these others has one |
| StyleFiles.WhitespaceFixSound | utils/check-style-clang-format.py:507-540 | on file contents: fixed is clean, fixing twice is fixing once, and the report is true exactly when the content changes |
| StyleFiles.TabFixSound | utils/check-style-clang-format.py:595-639 | the same for tabs |
| StyleFiles.BothFixesSound | utils/check-style-clang-format.py:328-342 | a file clean of trailing white space is so after tab fixing |
| StyleFiles.GuardedLinesInFile | utils/check-style-clang-format.py:604-639 | read as lines, a file keeps every guarded line through a tab fix and has all others expanded |
| StyleFiles.GuardedBytesKeptIff | utils/check-style-clang-format.py:604-639 | a guarded line as stored, its end included, comes back unchanged if and only if the file has nothing to fix or the line holds no carriage return |
| StyleFiles.ReturnsKeptIff | utils/check-style-clang-format.py:604-639 | a file keeps a carriage return through the tab fix if and only if it has one and nothing to fix |
| StyleFiles.GuardedReturnDropped | utils/check-style-clang-format.py:604-639 | a concrete file whose guarded line loses its carriage return to a fix of another line |
| StyleFiles.Tree.CheckTrailingWhitespaceFile | utils/check-style-clang-format.py:507-540 | check mode with its early exit and fix mode return the same report; only fix mode changes the file |
| StyleFiles.Tree.CheckTabsLines | utils/check-style-clang-format.py:604-633 | the loop over lines with the guard state reports and fixes what the line-wise definitions say, in both modes |
| StyleFiles.Tree.CheckTabsFile | utils/check-style-clang-format.py:595-639 | the same for a file with tabs |
| StyleFiles.Tree.CheckStyle | utils/check-style-clang-format.py:300-348 | fix mode always succeeds; check mode changes nothing and succeeds exactly when all files are clean |
| StyleFiles.FixThenCheckSucceeds | utils/check-style-clang-format.py:328-348 | after a run in fix mode a run in check mode succeeds, for any files and lists |
| StyleFiles.FixTwice | utils/check-style-clang-format.py:328-348 | a second run in fix mode changes no file |
| StyleMeaning.FixedFileByFile | utils/check-style-clang-format.py:328-342 | what a run in fix mode does to each file: white space and then tabs, each only if enabled and only for the files of its list |
| BenchRun.Bench.Cb | utils/bench-scheduler.cc:163-176 | a callback stops the run once the total is reached, and otherwise schedules one event and counts one |
| BenchRun.Bench.Turn | utils/bench-scheduler.cc:163-176 | executing one event keeps the population unless it stops the run |
| BenchRun.Bench.Run | utils/bench-scheduler.cc:133-161 | a run ends with the total counted if there is a population, and with 0 otherwise; it draws one delay for each event it scheduled |
| BenchRun.Bench.Suite | utils/bench-scheduler.cc:294-305 | every repeated run gives the same counts again, and the priming run before them is a run like the others |
| Welford.CentreMoves | utils/bench-scheduler.cc:358-362 | how squared deviations change with the centre, for any number of results |
| Welford.SumsAddUp | utils/bench-scheduler.cc:358-362 | the two-pass sums, and with SumOfOne what each result adds to them |
| Welford.SumOfOne | utils/bench-scheduler.cc:358-362 | a result adds its value to the sum and the square of its distance from the mean to the squared deviations |
| Welford.AccumulateIsRight | utils/bench-scheduler.cc:358-362 | one step turns mean and squared deviations of n results into those of n + 1, whatever the average started from when n is 0 |
| Welford.AccumulateAll | utils/bench-scheduler.cc:351-372 | the step for all six columns |
| Welford.Log | utils/bench-scheduler.cc:331-381 | of every column, the average is the mean and the deviation the root, a parameter, of the non-negative population variance about it; fewer than two results give none |
| Timeline.TimelineDataRange.Search | utils/grid.py:100-117 | for ordered ranges, an index that holds the key or -1 if none does; for disjoint ones the only such index |
| Timeline.TimelineDataRange.GetRanges | utils/grid.py:131-147 | a contiguous part of the ranges: those that meet the window, opened to the end of the list on a side where its end point is in no range, or none if neither is in one; exactly the ranges that meet it if and only if `Exact` holds, and all of them when one end point lies in a range |
| Timeline.TimelineDataRange.GetRangesBounds | utils/grid.py:148-164 | the same for the bounds |
| Timeline.MeetingAre | utils/grid.py:131-147 | the plain filter: the ranges that share a point with the window, in order, each once |
| Timeline.RangesCanBeWrong | utils/grid.py:131-164 | two ranges, and two windows for which the result is not the filter: one too many, one missing |
| Timeline.TimelineEvent.Search | utils/grid.py:195-212 | the place of the key among events in order of time |
| Timeline.TimelineEvent.GetEvents | utils/grid.py:220-229 | precisely the events in the window, then the next one unless an event happens at its end; exact if and only if one does or none follows |
| Timeline.TimelineEvent.GetEventsBounds | utils/grid.py:230-239 | the same for the bounds |
| Timeline.WithinAre | utils/grid.py:220-229 | the plain filter: the events with start <= at <= end, in order, each once |
| Timeline.EventBeyondWindow | utils/grid.py:220-239 | two events and a window for which the event after it is returned as well |
| UeAllocation.Allocate | scratch/scenario-three.cc:730-763 | every UE is installed exactly once, at the station its index determines: index / (n / m) in the equal blocks, one station each for the last n % m indices; each station gets n / m of them or one more |

## Left out

- TestRunner.TestRun.RunTests: asks for a worker or an empty plan, because without either the original waits for ever (EveryRunFinishesIff).
- RepeatedPaths.RecordedOnceIffNoTwin: asks for names that can be read back; without them repeated edges are not the only reason for a repeat (NamesCanClash).
- UeAllocation.Allocate: asks for at least one station; with none the original divides by zero.
- Subprocesses, temporary files, XML, HTML and text reports, name lists and progress lines of test.py: a command is its return code, fixed per job. Worker threads that die of an exception are not modelled.
- A PatchChunkLine without a type, which makes write raise: no code path leaves one, so constructing and setting are one step here.
- Patch.apply (a stub), uncrustify, difflib and the external patch program.
- Python's own limit on the length of decimal numbers.
- Text encodings, and line ends other than "\n" on writing.
- The clang-format pass, file discovery and process pools of check-style-clang-format.py: files are checked one after the other.
- How TypeIds, attribute checkers and aggregations are registered: a type graph is any finite table of them. All printing of documentation.
- The ns-3 simulator beyond pending events, earliest next and stop after the current event; wall-clock times and random streams are parameters.
- Floating-point rounding and the derived rates in bench-scheduler.cc: statistics are over the reals, and the square root is any function.
- Sorting in grid.py and everything that draws; get_ranges on overlapping ranges and get_events on equal times.
- Positions and mobility models in scenario-three.cc, and all other scenario scripts.
