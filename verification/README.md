# Verified model of the trace-coverage analysis and the campaign scheduler

This project models the parts of the TDVFuzz tool chain that turn kAFL traces into
coverage and that schedule fuzzing campaigns, and proves what they promise. It has
five parts.

**The trace parser** (`Edges`, `EdgeKeys`, `Splice`, `TraceGraph`, `TraceReports`,
`BackTrace`, `CallerSearch`, `SortedStrings`, `LineDump`, `TraceParser`). A trace is a sequence of
edges. A jump to the exit address and the jump back from it are spliced into one edge
with a fake source, and four indexes of the emitted edges are built on the way
(`Splice`). Many traces are merged (`TraceReports`), and two depth-limited searches
with a shared seen set walk the merged graph: back in time from an edge (`BackTrace`)
and up the callers of a function (`CallerSearch`). What the line-data dump says of each
address is stated by position in the dump (`LineDump`). The object itself, with its
mutable fields, is the class `TraceParser.TraceParser`. Its methods are proved
against the relation `TraceRun` and the function `Collected`; what the searches find
is proved about these.

**The fast matcher** (`PathNormal`, `FastTrace`, `RangeSet`, `TraceRanges`,
`ParallelMerge`, `CampaignCoverage`). A stack machine normalises paths, which are the
keys of all matching. An iterator splices exits by recursion. A loop turns a trace
into address ranges, and worker threads merge the ranges of all traces into one locked
set, modelled as a state machine over all interleavings.

**The campaign scheduler** (`CpuBudget`, `Scheduler`, `FuzzLoop`). The start-up code
divides the CPUs between pipelines. The allocation loop hands them to jobs, which
start and finish at any time. `Scheduler` is the state machine of loop, executor and
jobs. `FuzzLoop` is the loop itself, while jobs move on between its polls; every state
it passes through is proved to be a state of the machine.

**The audit matcher** (`Smatcher`). An indexed join of covered lines with audit
reports, the classification of functions, and a database that runs share.

**The agent configuration** (`AgentConfig`, `HeaderFile`). Parsing, printing and editing
the flag section of a header file, as lines and as characters.

## Results worth knowing

- A back-trace that starts afresh from a recorded edge always answers yes, at every
  depth. In general the answer is exact as soon as the depth exceeds the number of
  unseen edges.
- A back-trace of a function marks exactly the edges that a path of unseen edges, on no
  reported line but for its last one, leads back to from a call into the function, once
  there are no more unseen edges than levels; at every depth it marks no others.
- The caller search finds exactly the closure when the depth is at least the size of
  the closure. The depth is not a hop count: a fresh search finds every caller within
  its hop limit, on every graph, exactly for depths below 2 (`DepthIsHopLimitIff`). From
  depth 2 on, the default of 4 included, there is a graph on which a caller three hops
  away is missed, because the way to it was first entered too deep
  (`DepthLimitMissesCaller`).
- The two splicers agree exactly on the traces where every exit is followed at once
  by a re-entry. On an exit that ends the trace the iterator yields one more edge than
  the parser; on longer chains of exits the parser stops and the iterator collapses them.
- The allocation loop as written (`bkc/kafl/pipeline.py:260-264`) polls every task ever
  started, so a finished task gives its pipe back again and again. It keeps unfinished
  jobs on different pipes exactly when there are at most `pipes + 1` jobs, and never
  runs two jobs in one CPU window exactly when there is one pipe or at most `pipes + 1`
  jobs. The theorems named `Rescan...` are about this loop. The theorems named
  `HarvestOnce...` are about the loop that takes each pipe back once; there pipes are
  never shared. `NoJobLost` holds for both.
- The signs of all reported functions are right exactly when every entry of the loaded
  database that the present reports no longer have belongs to a function that has no
  reported entry, or has one that is hit now or in the database (`MarksRightIffNoStale`).
  Otherwise a function none of whose entries is covered gets the sign `/`; a line that
  moved since the database was saved is enough (`StaleEntryMisleads`).
- Whatever the schedule of the workers, the merged set is that of one thread exactly
  when the workers outnumber the unreadable traces, or no readable trace has ranges:
  with as many unreadable traces as workers, all workers can panic before anything is
  merged (`NothingLostIff`).
- Editing the header keeps what surrounds the flag section exactly when the first end
  marker follows the first start marker. Otherwise an edit writes the lines from the end
  marker to the start marker twice and forgets all settings but the new one
  (`WronglyMarkedEdit`).

## Model

| member | source | states |
|---|---|---|
| EdgeKeys.EdgeKeyRoundTrip | bkc/kafl/smatch_match.py:103-110 | reading a written edge key gives the edge back, for addresses of any size |
| EdgeKeys.EdgeKeyWidth | bkc/kafl/smatch_match.py:103-105 | the key of an edge between 64-bit addresses has sixteen digits, a comma and sixteen digits |
| EdgeKeys.HexIsLower | bkc/kafl/smatch_match.py:103-105 | keys are written in digits and lower-case letters |
| EdgeKeys.EdgeKeysAreFaithful | bkc/kafl/smatch_match.py:185-190 | two edges have the same key only if they are the same, so string-keyed dictionaries are maps on edges |
| Edges.FakeExitIsTraceExit | bkc/kafl/smatch_match.py:172-178 | a fake source is never zero or the exit address, and lies below the addresses that have line data |
| Edges.FakeExitHalves | bkc/kafl/smatch_match.py:176-176 | the high half of a fake source is the source's remainder, the low half is all ones |
| Edges.FakeExitCollision | bkc/kafl/smatch_match.py:176-176 | exactly which exits share a fake source |
| Edges.FakeExitRecoversKernelSource | bkc/kafl/smatch_match.py:176-176 | the source of a kernel exit can be read back from its fake address |
| Edges.FakeExitInjectiveOnKernel | bkc/kafl/smatch_match.py:176-176 | no two kernel exits share a fake source |
| Splice.ParseSpliceTrace | bkc/kafl/smatch_match.py:139-192 | succeeds iff every exit is last or paired, and then the four indexes agree with the emitted edge stream |
| Splice.EmittedInOrder | bkc/kafl/smatch_match.py:157-190 | the emitted stream by position: nothing for an exit, and for every other line its edge, spliced right after an exit, once and with its own count |
| Splice.TimesTakenAddUp | bkc/kafl/smatch_match.py:185-186 | a line counts as often as it says, and the counts of a stream add up |
| Splice.IndexesGrow | bkc/kafl/smatch_match.py:185-190 | the four dictionary updates of one edge keep all indexes in agreement with the stream |
| Splice.EmittedNeverExits | bkc/kafl/smatch_match.py:172-177 | no emitted edge leads to the exit address |
| Splice.SentinelNeverRecorded | bkc/kafl/smatch_match.py:157-190 | the edge that stands before the first one is in no index as a key |
| Splice.CallersInvertEdges | bkc/kafl/smatch_match.py:185-189 | the caller index is the inverse of the recorded edges |
| TraceGraph.FindingsAreSound | bkc/kafl/smatch_match.py:157-192 | every spliced trace has closed predecessors and a chain from every edge back to the start |
| TraceGraph.MergedGraphIsSound | bkc/kafl/smatch_match.py:264-271 | merging traces keeps inverse callers, closed predecessors and chains to the start |
| TraceReports.UpdateSets | bkc/kafl/smatch_match.py:264-271 | the merge loops compute the key-wise union |
| TraceReports.AddCounts | bkc/kafl/smatch_match.py:266-268 | the count loop adds the counts key by key |
| TraceReports.RowsNeverDecrease | bkc/kafl/smatch_match.py:273-276 | coverage rows never fall from one trace to a later one |
| TraceReports.TotalsIgnoreOrder | bkc/kafl/smatch_match.py:256-271 | the merged totals, counts included, do not depend on the order of the traces |
| TraceReports.ReportsIgnoreOrder | bkc/kafl/smatch_match.py:252-280 | two reports on the same results, in any order, end in the same state with the same coverage in the last row |
| TraceReports.PresentInOrder | bkc/kafl/smatch_match.py:256-277 | reports take the results with findings, in order and with their own times |
| TraceReports.MergedStep | bkc/kafl/smatch_match.py:260-271 | merging one more trace extends unions and sums by exactly that trace |
| TraceParser.ParseTraceList | bkc/kafl/smatch_match.py:194-212 | succeeds iff there is an input and every trace that exists can be spliced, with one agreeing result for each of them, in the order of the inputs and with their times |
| TraceParser.ParsedAreSound | bkc/kafl/smatch_match.py:194-212 | everything parsed this way is safe to merge into a sound graph |
| TraceParser.TraceParser.ParseAddr2Line | bkc/kafl/smatch_match.py:214-245 | by position in the dump: each address gets the location of the last line for it, each function and source line the addresses of the lines that name it, and nothing else changes |
| LineDump.InlinedLinesCount | bkc/kafl/smatch_match.py:227-245 | an inlined-by line counts for the address before it, and the last of them gives the address its function |
| LineDump.SaysOnce | bkc/kafl/smatch_match.py:222-245 | every line of the dump says one thing of one address |
| LineDump.NamedFunctionsListed | bkc/kafl/smatch_match.py:232-245 | reading keeps every address listed under its own source line and its own function |
| TraceParser.TraceParser.LookupsLeadBack | bkc/kafl/smatch_match.py:85-98 | the line and the function that the lookups give for a kernel address list that address |
| TraceParser.TraceParser.FakeSourceLine | bkc/kafl/smatch_match.py:85-88 | a fake source lies on a reported line only if line 0 is reported |
| TraceParser.TraceParser.MergeFindings | bkc/kafl/smatch_match.py:260-271 | merges one trace and counts exactly the new blocks and edges |
| TraceParser.TraceParser.GenReports | bkc/kafl/smatch_match.py:252-280 | after all traces the state holds unions and sums, every row counts the union so far, and the graph stays sound |
| TraceParser.TraceParser.LinesKnownResolve | bkc/kafl/smatch_match.py:85-98 | line data for the recorded edges is enough for the caller search |
| TraceParser.TraceParser.CallsiteTraceEdge | bkc/kafl/smatch_match.py:290-325 | behaves as a run of the back-trace search; a fresh search answers yes |
| TraceParser.TraceParser.TracePriorEdges | bkc/kafl/smatch_match.py:314-325 | searches from every predecessor once, whatever the order, and combines the answers |
| TraceParser.TraceParser.CallsiteTraceFunc | bkc/kafl/smatch_match.py:327-335 | one search from each recorded call into the function, in some order, and so what these searches reach is marked |
| TraceParser.TraceParser.CallsIntoMeansRecorded | bkc/kafl/smatch_match.py:329-334 | the calls searched from are the recorded edges into the function's addresses, those from address 0 aside |
| BackTrace.TraceRunMarksReached | bkc/kafl/smatch_match.py:290-325 | at every depth a search marks only edges on a path of unseen edges back from its start, within its depth |
| BackTrace.TraceRunExplores | bkc/kafl/smatch_match.py:299-324 | with depth to spare every newly marked edge on no reported line has all its predecessors marked |
| BackTrace.SearchesMark | bkc/kafl/smatch_match.py:290-335 | the same for any searches from several edges, one after the other |
| BackTrace.SearchedIsExact | bkc/kafl/smatch_match.py:290-335 | with depth to spare exactly the reachable edges are newly marked |
| BackTrace.TraceRunOutcome | bkc/kafl/smatch_match.py:290-325 | yes comes with a way out or a path past the depth; no means the searched region is sealed off |
| BackTrace.TraceRunIsExact | bkc/kafl/smatch_match.py:290-325 | with depth to spare the answer is yes iff the edge has a way out avoiding what was seen |
| BackTrace.FreshSearchNeverDeadEnds | bkc/kafl/smatch_match.py:290-325 | from a recorded edge with nothing seen the search answers yes at every depth |
| BackTrace.TraceRunGrows | bkc/kafl/smatch_match.py:299-303 | a search only marks more edges, and marks its own unless cut off |
| TraceParser.TraceParser.CallersOf | bkc/kafl/smatch_match.py:371-375 | collects exactly the valid callers of the function's addresses |
| TraceParser.TraceParser.DirectMeansRecorded | bkc/kafl/smatch_match.py:371-375 | direct callers are the sources of recorded edges into the function's addresses, the exit address aside |
| CallerSearch.FakeCallersAreExits | bkc/kafl/smatch_match.py:90-98 | the fake source of an exit counts as an exit in every graph |
| TraceParser.TraceParser.CollectCallers | bkc/kafl/smatch_match.py:362-387 | none iff the function is unknown; else returns exactly what it added to the seen set, and the closure with depth to spare |
| TraceParser.TraceParser.SearchOn | bkc/kafl/smatch_match.py:383-387 | goes on with the functions of the new callers in sorted order |
| CallerSearch.CollectedIsBoundedAndComplete | bkc/kafl/smatch_match.py:362-387 | the seen set grows, every new caller lies within the hop limit, and depth to spare gives the whole closure |
| CallerSearch.FreshSearchFindsLeastSet | bkc/kafl/smatch_match.py:362-387 | a fresh search finds the least set closed under callers |
| CallerSearch.ClosureIsLeast | bkc/kafl/smatch_match.py:371-386 | the closure holds the direct callers, is closed under callers of members, and is least |
| CallerSearch.ShallowSearchIsComplete | bkc/kafl/smatch_match.py:377-387 | with at most one level to go every caller within the hop limit is found, whatever was seen before |
| CallerSearch.DepthLimitMissesCaller | bkc/kafl/smatch_match.py:362-387 | for every depth from 2 on, a graph on which a fresh search misses a caller three hops away |
| CallerSearch.DepthIsHopLimitIff | bkc/kafl/smatch_match.py:362-387 | exactly at which depths a fresh search finds every caller within its hop limit on every graph |
| SortedStrings.PrefixFirst | bkc/kafl/smatch_match.py:384-384 | a name sorts before its extensions |
| SortedStrings.FirstDifferenceDecides | bkc/kafl/smatch_match.py:384-384 | otherwise the first different character decides, however long the names are |
| SortedStrings.SortedStep | bkc/kafl/smatch_match.py:384-384 | taking least elements one by one is sorting |
| FastTrace.TraceFileIter.Next | bkc/coverage/fast_matcher/src/main.rs:166-199 | consumes a chain of exits and the line after it and yields its ends; panics iff the chain is broken |
| FastTrace.YieldsIffChained | bkc/coverage/fast_matcher/src/main.rs:183-194 | a trace is read to its end iff every exit but a last one is followed by a jump from the exit address |
| FastTrace.IteratorYieldsHops | bkc/coverage/fast_matcher/src/main.rs:166-199 | on traces the parser accepts the iterator yields the true edges, and an exit that ends the trace |
| FastTrace.SplicersAgreeIffPaired | bkc/coverage/fast_matcher/src/main.rs:166-199 | both splicers succeed and agree up to fake sources iff every exit is paired |
| FastTrace.LongExitChainsCollapse | bkc/coverage/fast_matcher/src/main.rs:183-187 | a longer chain of exits is one edge for the iterator and stops the parser |
| PathNormal.Normalize | bkc/coverage/fast_matcher/src/main.rs:79-141 | the result is a normal form that denotes the same place from every current directory |
| PathNormal.NormalFormUnique | bkc/coverage/fast_matcher/src/main.rs:79-141 | two normal forms that denote the same place everywhere are equal |
| PathNormal.NormalFormFixed | bkc/coverage/fast_matcher/src/main.rs:79-141 | normalisation is idempotent and leaves normal forms alone |
| PathNormal.NormalFormsDecide | bkc/coverage/fast_matcher/src/main.rs:79-141 | normal forms are equal iff the paths denote the same place |
| PathNormal.NewLineInfo | bkc/coverage/fast_matcher/src/main.rs:49-53 | a location key holds the line and the normal form of the path |
| PathNormal.LineInfosMatchIffSamePlace | bkc/coverage/fast_matcher/src/main.rs:43-53 | location keys match iff they name the same line of the same place |
| RangeSet.InsertCovers | bkc/coverage/fast_matcher/src/main.rs:454-463 | inserting a range adds exactly its addresses |
| RangeSet.InsertCanonical | bkc/coverage/fast_matcher/src/main.rs:454-463 | inserting keeps the ranges sorted, disjoint and non-adjacent |
| RangeSet.CanonicalUnique | bkc/coverage/fast_matcher/src/main.rs:640-642 | the address set determines the list of ranges |
| TraceRanges.ReadTraceFile | bkc/coverage/fast_matcher/src/main.rs:203-212 | collects exactly the ends of the spliced edges |
| TraceRanges.ReadTraceFileGetRanges | bkc/coverage/fast_matcher/src/main.rs:411-469 | the ranges hold the ends of the edges and what was passed in a shared reported function, and nothing else |
| TraceRanges.AddEdgeMeaning | bkc/coverage/fast_matcher/src/main.rs:434-463 | what one more edge adds to the address set |
| ParallelMerge.StepConserves | bkc/coverage/fast_matcher/src/main.rs:635-644 | queued, held and merged files always partition the initial bag |
| ParallelMerge.StepKeepsLock | bkc/coverage/fast_matcher/src/main.rs:639-643 | only the lock holder merges |
| ParallelMerge.RunInv | bkc/coverage/fast_matcher/src/main.rs:616-652 | in every state of every run the set holds the merged files and the part merged so far |
| ParallelMerge.MergeIsSchedulingIndependent | bkc/coverage/fast_matcher/src/main.rs:616-652 | the final range list equals that of one thread, for any number of workers, interleaving and file order |
| ParallelMerge.FinishedDrainsQueue | bkc/coverage/fast_matcher/src/main.rs:635-646 | one worker that stops without a panic means a drained queue |
| ParallelMerge.FewPanicsLoseNothing | bkc/coverage/fast_matcher/src/main.rs:635-652 | with more workers than unreadable traces nothing else is lost |
| ParallelMerge.ManyPanicsLoseAll | bkc/coverage/fast_matcher/src/main.rs:635-652 | with as many unreadable traces as workers, a run that merges nothing |
| ParallelMerge.NothingLostIff | bkc/coverage/fast_matcher/src/main.rs:616-652 | exactly when no schedule can lose a readable trace |
| ParallelMerge.NoDeadlock | bkc/coverage/fast_matcher/src/main.rs:632-646 | until all workers have stopped some worker can move |
| ParallelMerge.RunsEnd | bkc/coverage/fast_matcher/src/main.rs:635-652 | no run is longer than the work it starts with |
| CampaignCoverage.CoverageIsExact | bkc/coverage/fast_matcher/src/main.rs:616-652 | the shared set ends up with exactly the addresses some readable trace ran through |
| CpuBudget.Args.Budget | bkc/kafl/pipeline.py:390-402 | workers fit the CPUs, threads twice the CPUs, more than one pipeline leaves two CPUs spare, no further pipeline would fit, and the threads are scaled up as far as they go or stay at two for each worker |
| CpuBudget.BudgetIsUnique | bkc/kafl/pipeline.py:390-402 | only one choice of workers, threads and pipelines keeps these promises |
| CpuBudget.WindowsDisjoint | bkc/kafl/pipeline.py:130-133 | the CPU windows of different pipelines are disjoint |
| CpuBudget.WindowInside | bkc/kafl/pipeline.py:130-133 | the CPU window of every pipeline lies inside the CPUs |
| Scheduler.NoJobLost | bkc/kafl/pipeline.py:246-267 | queue and reversed dispatch order make up the pipeline, pipe numbers are valid, and the loop exits with an empty queue |
| Scheduler.HarvestOncePartitions | bkc/kafl/pipeline.py:248-264 | with each completion harvested once, free pipes and pipes of unharvested tasks partition the pipes |
| Scheduler.HarvestOnceWindows | bkc/kafl/pipeline.py:130-133 | with each completion harvested once, unfinished jobs have disjoint CPU windows inside the CPUs |
| Scheduler.FewJobsExclusive | bkc/kafl/pipeline.py:246-267 | up to one job more than pipes, the loop as written keeps unfinished jobs on different pipes |
| Scheduler.ManyJobsCollide | bkc/kafl/pipeline.py:260-264 | for two pipes or more and two jobs more than pipes, a run with two jobs at once in one CPU window |
| Scheduler.RescanDispatchExclusiveIff | bkc/kafl/pipeline.py:246-267 | exactly when the loop as written gives no two unfinished jobs one pipe |
| Scheduler.RescanRunningExclusiveIff | bkc/kafl/pipeline.py:246-267 | exactly when the loop as written never runs two jobs in one CPU window |
| FuzzLoop.FuzzLoop.DispatchOne | bkc/kafl/pipeline.py:252-259 | takes the last job and any free pipe, as a step of the machine |
| FuzzLoop.FuzzLoop.PollOne | bkc/kafl/pipeline.py:262-264 | after any moves of the jobs, a task that is done gives its pipe back, as steps of the machine |
| FuzzLoop.FuzzLoop.PollAll | bkc/kafl/pipeline.py:262-264 | the pipes of the tasks found done, and no others, become free, as steps of the machine |
| FuzzLoop.FuzzLoop.WaitForPipe | bkc/kafl/pipeline.py:260-264 | ends with a free pipe, at once after a task is done, or out of rounds, in a state of the machine |
| FuzzLoop.FuzzLoop.Run | bkc/kafl/pipeline.py:248-264 | the loop ends in an exited state of the machine with every job dispatched once, in reverse order; it does end, within as many rounds as jobs, once a task of the first round is done |
| FuzzLoop.FuzzLoop.NothingLost | bkc/kafl/pipeline.py:248-267 | wherever the loop is, queue and reversed dispatch order make up the pipeline and pipe numbers are valid |
| FuzzLoop.FuzzLoop.FewJobsApart | bkc/kafl/pipeline.py:248-264 | wherever the loop is, up to one job more than pipes, unfinished jobs hold different pipes |
| FuzzLoop.JobsReached | bkc/kafl/pipeline.py:260-264 | whatever jobs do between two polls is a run of the machine |
| FuzzLoop.JobsCanFinish | bkc/kafl/pipeline.py:248-267 | from any point all jobs can finish, so what `Run` asks of them can be met |
| Smatcher.IndexByLine | bkc/coverage/smatcher/smatcher/__init__.py:173-177 | the index holds exactly the entries of each line |
| Smatcher.JoinItem | bkc/coverage/smatcher/smatcher/__init__.py:173-182 | the indexed join equals the naive one |
| Smatcher.JoinAll | bkc/coverage/smatcher/smatcher/__init__.py:165-182 | hits are the entries whose line is covered by an input that reports them |
| Smatcher.Database.Run | bkc/coverage/smatcher/smatcher/__init__.py:158-189 | covered is the loaded or merged database and the hits; saving writes it; loading needs a database |
| Smatcher.MarksAreExact | bkc/coverage/smatcher/smatcher/__init__.py:191-243 | what each sign of a reported function means, with or without a database |
| Smatcher.MarksRightIffNoStale | bkc/coverage/smatcher/smatcher/__init__.py:158-243 | which inputs and databases give every reported function the right sign, and no others |
| Smatcher.StaleEntryMisleads | bkc/coverage/smatcher/smatcher/__init__.py:158-243 | an input and a database that give a function without covered entries the slash |
| Smatcher.FreshMarksAreRight | bkc/coverage/smatcher/smatcher/__init__.py:191-243 | without a database: plus iff all entries are covered, minus iff none, slash otherwise |
| Smatcher.SaveRuns | bkc/coverage/smatcher/smatcher/__init__.py:183-189 | saved runs leave the old contents and the hits of all runs |
| Smatcher.SavedRunsIgnoreOrder | bkc/coverage/smatcher/smatcher/__init__.py:183-189 | runs saved in any order leave the same database |
| AgentConfig.GetCurrentConfig | scripts/agent_config.py:93-106 | the loops read the configuration that the lines stand for |
| AgentConfig.LastLineDecides | scripts/agent_config.py:97-106 | on any lines, the last one that names a flag decides, by its first four characters |
| AgentConfig.UnnamedFlag | scripts/agent_config.py:97-106 | a flag that no line names is not in the configuration |
| AgentConfig.CommentedOutMeans | scripts/agent_config.py:102-104 | a line is switched off iff it starts with two slashes, a blank and a hash |
| AgentConfig.SwitchedOffLine | scripts/agent_config.py:63-71 | the text of a printed line; switched off it is the same line commented out |
| AgentConfig.PutSetsInPlace | scripts/agent_config.py:108-114 | a known flag changes where it stands, a new one is appended, nothing else changes |
| AgentConfig.CreateConfigLines | scripts/agent_config.py:59-71 | one line for each setting, in order |
| AgentConfig.LineNamesItsFlag | scripts/agent_config.py:35-40 | a printed line names its own flag and no other |
| AgentConfig.ConfigRoundTrip | scripts/agent_config.py:59-106 | parsing printed lines gives the configuration back |
| AgentConfig.IndexOf | scripts/agent_config.py:86-87 | the position of the first equal line, if there is one |
| AgentConfig.SplitAgain | scripts/agent_config.py:73-91 | a rewritten header splits into the same head and tail around the new lines |
| AgentConfig.AgentLib.SetFlag | scripts/agent_config.py:154-173 | rewrites the header with one flag set in its place, or leaves it alone without markers |
| AgentConfig.EditedInPlace | scripts/agent_config.py:73-173 | in a well-marked header only the flag section changes, where each line keeps its place |
| HeaderFile.ReadLinesAreProper | scripts/agent_config.py:49-50 | reading a file into lines loses nothing |
| HeaderFile.WrittenLinesReadBack | scripts/agent_config.py:73-80 | proper lines that are written are read back |
| HeaderFile.EditedFileReadsBack | scripts/agent_config.py:43-91 | an edited header that is written and read again gives the edited lines |
| AgentConfig.EditRoundTrip | scripts/agent_config.py:59-114 | an edit keeps head and tail, changes one flag only, and changes nothing the second time |
| AgentConfig.WronglyMarkedEdit | scripts/agent_config.py:73-91 | with the end marker first, an edit writes the lines between the markers twice and keeps the new setting only |
| AgentConfig.SwappedMarkers | scripts/agent_config.py:73-91 | the shortest such header, after one edit and after two |
| AgentConfig.EditKeepsPartsIffWellMarked | scripts/agent_config.py:82-91 | head and tail survive an edit iff the first end marker follows the first start marker |

## Left out

- Reading files, lz4, msgpack and regular expressions: the model starts from parsed lines, entries and coverage sets. Trace lines that end early are outside the domain.
- Line data from DWARF: lookups are maps or functions. A missing address in the two searches, a KeyError in the original, is excluded by `LinesKnown` and `Resolvable`. A trace that begins with a re-entry records the exit address itself as a source, so there `LinesKnown` asks for line data of that address, as the original does.
- EdgeKeys.EdgeStrToTuple: numbers with a sign, a `0x` prefix, underscores or blanks, which Python also accepts, are not parsed; no written key has them.
- PathNormal.Normalize: the branch for Windows prefixes is there, but its result is specified for Unix paths only. Symbolic links are not modelled.
- RangeSet.InsertCovers: the crate's insert is modelled by its documented coalescing on unbounded numbers; its source is not part of this model, and its behaviour next to the largest 64-bit address is not covered.
- TraceParser.TraceParser.CallsiteTraceEdge: the order in which Python iterates over sets is arbitrary, and so it is in the model. Python's recursion limit is not modelled.
- TraceParser.TraceParser.CollectCallers: the mutable default of the seen set is passed as an object; `print_callers`, the same walk with output, is not modelled.
- ParallelMerge.RunInv: threads, lock and queue are steps of a state machine on values; poisoned locks are not modelled, a panic while reading a trace is.
- Scheduler.NoJobLost: the loop, the executor and the jobs are a state machine on values, since jobs finish at any time; building, tracing and reporting tasks, failing jobs and sleeping are not modelled.
- FuzzLoop.FuzzLoop.Run: what the jobs do between two polls is an input, any function that takes steps of the executor; the loop of the original may wait for ever, here it returns when the given rounds run out.
- `parse_trace_file` and `func2lines`: they would add only easy members.
- Percentages, filters, printing and the reachability section of the audit matcher, which is switched off in the original.
- AgentConfig.AgentLib.SetFlag: the header is a list of lines with their line ends; `HeaderFile` relates it to characters. A platform that translates line ends on writing is not modelled. The line-end detection in `load_agentlib` assigns a local variable, so the constant CRLF is what the other functions use, and the model follows them.
- `bkc/audit`, `bkc/kafl/stats.py`, `bkc/kafl/init_harness.py`, `scripts/count_exceptions.py` and the shell scripts: string filtering and counting, which would add only easy members.
