# Snail, verified

A Dafny model of the parts of the Snail profiler whose correctness is not visible in a single branch, with proofs of
what they promise. One module stands for one piece of the program:

- `Scheduler`, `SchedulerRuns`: the per-document reader/writer scheduler of the server, first its steps as each document sees
  them, then its runs and the class that takes the steps.
- `ModuleMap`: the index from addresses and times to loaded modules.
- `Xpress`: the plain LZ77 decoder of MS-XCA, with an encoder as its partner.
- `CallTree`, `FunctionFlow`, `StacksAnalysis`, `StacksAnalyzer` (and `Hits`): the stack analysis. The first two are the
  prefix tree and the caller/callee table on ids, the third interns names and states what the counters mean, the fourth
  is the loop over the samples.
- `ChunkedReading`: the sliding window over a file section, and the record loop of perf.data files.
- `Merging`, `Samples`, `EtlProcess`: the k-way merges with a priority queue, the time windows, and the buffer chains of
  trace files.
- `Ticks`: conversion between nanoseconds and performance counter ticks, in 64-bit arithmetic.
- `Profiled`: the closure of the profiled processes under the child relation.
- `Framing`: the message framing of the JSON-RPC transport.
- `Wildcard`: the translation of wildcards into regular expressions.
- `Storage`: the caches of an open document.
- `CacheRuns`: whole runs of filter changes and queries on a document, and when their answers are fresh.
- `EndToEnd`: from recorded samples, through windows, merge and analysis, to the hits of the call tree.
- `Wrappers`: types that several pieces share.

Code that works step by step is modelled by methods with loops or by classes with the program's fields; each is proved
equal to a function or a relation, and the theorems are about that.

Several promises do not hold of the code as it is. The model keeps the code and says exactly when the promise holds:

- Scheduler: a finishing task keeps its document serial if and only if it does not hold the continuation duty, or is the last
  of the document's running tasks, or the queue continues with a read (`Scheduler.FinishKeepsSerialExactlyWhenSafe`).
  With two workers the promise is broken in reachable states: a read overlaps a write, or a task is never run
  (`SchedulerRuns.UnsafeRunsExist`). A run stays serial if and only if all its finishes are safe
  (`SchedulerRuns.SerialExactlyWhenSafe`), and after every other finish some continuation overlaps or loses a task
  (`SchedulerRuns.UnsafeFinishBreaksPromise`).
- Scheduler, shutting down: the dispatcher returns for good once it is told to and nothing is queued, but scheduling never
  asks whether it has. Where a safe run ends, every scheduled task was dispatched if and only if none was scheduled after
  the dispatcher had returned (`SchedulerRuns.AllDispatchedExactlyWhenTimely`, `SchedulerRuns.LateTaskExample`). The
  server does not run into this: it shuts the scheduler down when it has stopped serving
  (snail/server/snail_server.cpp:572-585).
- Module map: an insert keeps the index in agreement with the log if and only if it is dropped as a duplicate or the
  part of its interval inside the covered span has no partly covered gap
  (`ModuleMap.InsertKeepsAgreementExactlyWithoutPartialGap`). When loads come out of order, a duplicate that was dropped
  may be forgotten: the newest load wins at all times if and only if no load that is kept is the newest one by the time
  of a newer dropped one with another payload (`ModuleMap.NewestWinsExactlyWhenNothingHidden`,
  `ModuleMap.HiddenExample`).
- Filter times: the maximum with zero is meant to clamp times before the start of the session, but the product before it
  is unsigned. For every time and frequency, the timestamp is the start of the session if and only if the product, taken
  modulo 2^64, is less than the divisor, or the divisor is one and the product is at least 2^63
  (`Ticks.ClampedExactlyWhen`). For negative times whose product is not too large this comes down to the frequency being a
  multiple of a thousand million (`Ticks.NegativeTimeClampedExactlyWhen`), beyond that it does not
  (`Ticks.LargeTimeExamples`).
- Wildcards: the regular expressions mean the patterns on a string if and only if the string has no line end
  (`Wildcard.TranslationKeepsMeaningExactlyOnOneLine`).
- Framing: reading a message never returns if and only if every line of the stream, the unterminated last one included,
  gives a length or is ignored (`Framing.NeverReturnsExactlyWhen`, with examples in `Framing.EndedStreams`). A content
  is filled up with zeros if and only if the length that counts exceeds what is left of the stream
  (`Framing.PaddedExactlyWhenShort`). `Framing.CutFrame` gives the outcome for every place where a stream may end
  inside a frame, and `Framing.CutIsHarmlessExactlyWhen` says when the message is still read right.
- Trace files: the program writes behind its table of processors if and only if the first bad buffer header names the
  processor whose index is the number of processors and nothing else is wrong with it
  (`EtlProcess.WritesBehindTableExactlyWhen`, `EtlProcess.BehindTableExample`).
- Document caches: an analysis that was cancelled is kept like any other (`CacheRuns.CancelledIsKept`). Over every run of
  filter changes and queries, all answers are fresh if and only if no first query of a process under a filter missed a
  sample that leaves a trace; where all samples have a stack or a frame, this is so if and only if the token of no such
  query says cancelled before it was asked as often as there are samples (`CacheRuns.AllFreshExactlyWhen`).
- Reading a document again keeps the results of the first reading. Any data may be read without making what is kept wrong
  if and only if nothing is kept (`Storage.AnyDataFitExactlyWhenNothingKept`, `Storage.ReadTwice`). The server does not
  run into this: it reads a document once, under an id that it has just made
  (snail/server/snail_server.cpp:700-713).

## Model

| member | source | states |
|---|---|---|
| SchedulerRuns.DutyIsUnique | snail/server/detail/document_task_scheduler.cpp:48-103 | over every run and finish order: at most one holder of the duty to continue with a document, a listed document has something queued, and dispatched followed by queued tasks are the scheduled ones |
| SchedulerRuns.SerialEquivalence | snail/server/detail/document_task_scheduler.cpp:28-105 | in every state of a safe run (each task that finishes does not hold the duty, or is the last running one of its document, or leaves a queue that continues with a read), each running task faces exactly the document that all earlier scheduled writes produce in order, and shares it only with reads |
| Scheduler.FinishKeepsSerialExactlyWhenSafe | snail/server/detail/document_task_scheduler.cpp:80-104 | a finish keeps the document serial if and only if the finishing task does not hold the duty, or is the last running one, or the queue continues with a read |
| SchedulerRuns.SafeRunStaysSerial | snail/server/detail/document_task_scheduler.cpp:28-147 | a safe run can be run, and ends in a state where every document is serial |
| SchedulerRuns.OneWorkerRunsAreSafe | snail/server/detail/document_task_scheduler.cpp:70-107 | with one worker, which finishes tasks in submission order, every run is safe |
| SchedulerRuns.UnsafeRunsExist | snail/server/detail/document_task_scheduler.cpp:51-103 | two concrete runs from the start: one ends with a read and a write running together, one with a queued task and nobody to continue |
| SchedulerRuns.SerialExactlyWhenSafe | snail/server/detail/document_task_scheduler.cpp:80-104 | a run from a serial state stays serial throughout if and only if it is safe |
| SchedulerRuns.UnsafeFinishBreaksPromise | snail/server/detail/document_task_scheduler.cpp:99-143 | after every unsafe finish some continuation breaks the promise: with a task queued a write comes to run beside a read of its document, or, if the dispatcher has returned, the task is lost; with none queued the next scheduled task is lost |
| SchedulerRuns.UnsafeFinishListsWrite | snail/server/detail/document_task_scheduler.cpp:99-103 | every unsafe finish with a task queued lists the document although a write is next and a read still runs |
| SchedulerRuns.ListedReachesFront | snail/server/detail/document_task_scheduler.cpp:28-56 | exactly as many dispatches as a listed document has entries in front of it bring it to the front of the ready list, and leave it alone on the way |
| SchedulerRuns.ListedStayInLine | snail/server/detail/document_task_scheduler.cpp:28-56 | over every run, a dispatch takes the first entry of the ready list, no other step moves an entry, and a document that is listed meanwhile or stays ready stands behind the others |
| SchedulerRuns.WaitsForThoseInFront | snail/server/detail/document_task_scheduler.cpp:51-56 | whatever else happens, a listed document is served by the dispatch behind as many as have entries in front of it |
| SchedulerRuns.OthersGetTheirTurn | snail/server/detail/document_task_scheduler.cpp:51-56 | of two reads of one document and a write of another, the write is dispatched second |
| SchedulerRuns.UnsafeFinishLosesTask | snail/server/detail/document_task_scheduler.cpp:99-143 | after every unsafe finish on an empty queue the next scheduled task is lost: it is dispatched in no continuation |
| SchedulerRuns.StarvedForever | snail/server/detail/document_task_scheduler.cpp:22-24 | a starved document stays so in every run, and the dispatcher's exit is never enabled |
| SchedulerRuns.OutstandingDecreases | snail/server/detail/document_task_scheduler.cpp:24-106 | twice the queued plus the running tasks, plus one while the dispatcher runs, falls by one with every dispatch, every finish and the exit |
| SchedulerRuns.SerialStateProgresses | snail/server/detail/document_task_scheduler.cpp:19-25 | in a serial state with work left, something can be dispatched or safely finished while the dispatcher runs; what runs can be finished safely in any case |
| SchedulerRuns.SafeRunsDrain | snail/server/detail/document_task_scheduler.cpp:19-106 | once scheduling stops, a safe run has bounded length; where it ends nothing runs, every dispatched write is done, and the dispatcher has returned if it was told to; unless it had returned before, every scheduled task was dispatched once and in order |
| SchedulerRuns.ExitMeansAllDispatched | snail/server/detail/document_task_scheduler.cpp:24-24 | in every run from the start, the dispatcher can return only where every scheduled task of every document was dispatched |
| SchedulerRuns.NothingDispatchedAfterExit | snail/server/detail/document_task_scheduler.cpp:24-24 | once the dispatcher has returned, nothing is dispatched in any continuation, and what is queued stays queued |
| SchedulerRuns.LateTaskStaysQueued | snail/server/detail/document_task_scheduler.cpp:117-147 | a task that is scheduled after the dispatcher has returned is never dispatched |
| SchedulerRuns.AllDispatchedExactlyWhenTimely | snail/server/detail/document_task_scheduler.cpp:117-147 | where a safe run ends, every scheduled task of every document was dispatched if and only if no task was scheduled after the dispatcher had returned |
| SchedulerRuns.LateTaskExample | snail/server/detail/document_task_scheduler.cpp:117-155 | shutting down, returning and scheduling a task is a safe run from the start, and the task is lost |
| SchedulerRuns.DocumentTaskScheduler.constructor | snail/server/detail/document_task_scheduler.cpp:9-12 | the initial state of the transition system |
| SchedulerRuns.DocumentTaskScheduler.Schedule | snail/server/detail/document_task_scheduler.cpp:117-147 | refines the scheduling step |
| SchedulerRuns.DocumentTaskScheduler.DispatchNext | snail/server/detail/document_task_scheduler.cpp:21-107 | while the loop runs: takes the exit step exactly when shut down with nothing queued, else refines the dispatch step; the front of the ready list always has something queued |
| SchedulerRuns.DocumentTaskScheduler.FinishTask | snail/server/detail/document_task_scheduler.cpp:81-104 | refines the finish step |
| SchedulerRuns.DocumentTaskScheduler.AnyTask | snail/server/detail/document_task_scheduler.cpp:166-174 | finds a queued task if and only if there is one |
| SchedulerRuns.DocumentTaskScheduler.RequestShutdown | snail/server/detail/document_task_scheduler.cpp:149-155 | refines the shutdown step |
| ModuleMap.ModuleMap.Insert | snail/analysis/detail/module_map.hpp:106-254 | ranges stay sorted, disjoint and not empty; unless dropped as a duplicate, the module is appended at exactly the covered addresses, those outside the old span, and a clipped interval that overlaps nothing; an interval that is free or a range is a range afterwards |
| ModuleMap.ModuleMap.ExtendSpan | snail/analysis/detail/module_map.hpp:120-170 | prepends and appends the parts outside the span and clips the interval to the rest |
| ModuleMap.ModuleMap.InsertInside | snail/analysis/detail/module_map.hpp:171-253 | inside the span: drops a duplicate, fills a gap, or adds the module to exactly the covered addresses by splitting ranges |
| ModuleMap.ModuleMap.Find | snail/analysis/detail/module_map.hpp:256-276 | the entry of the range holding the address with the latest load not behind the time; without one nothing when strict, else the first |
| ModuleMap.FoundIsLoaded | snail/analysis/detail/module_map.hpp:256-276 | over every run of inserts, what is found is one of the loads that were not dropped, with its interval and its load time, and holds the address; a strict search finds none from behind the time |
| ModuleMap.FoundIsNewestKept | snail/analysis/detail/module_map.hpp:256-276 | over every run without partly covered gaps, in any order of load times, a strict search finds the newest load that holds the address by then and was not dropped, and nothing exactly when there is none |
| ModuleMap.FoundIsLastKept | snail/analysis/detail/module_map.hpp:198-276 | for loads in time order it finds the last load that holds the address by then, up to dropped ones; all later ones that do were dropped and have the same payload |
| ModuleMap.LenientFindsOldest | snail/analysis/detail/module_map.hpp:267-275 | a lenient search finds what a strict one does, and where that is nothing, a load that none of the address is older than |
| ModuleMap.NewestWinsExactlyWhenNothingHidden | snail/analysis/detail/module_map.hpp:198-211 | in any order of load times, no load, dropped ones included, is newer than what is found and has another payload, if and only if no kept load is the newest one by the time of a newer dropped one with another payload |
| ModuleMap.HiddenExample | snail/analysis/detail/module_map.hpp:198-211 | a module loaded twice, and another one inserted behind them for a time in between, which is then found |
| ModuleMap.InsertedAgainIsDropped | snail/analysis/detail/module_map.hpp:198-211 | a module whose interval is a range of its own is dropped when it is inserted again, at the same time or later |
| ModuleMap.StepsMeanInserted | snail/analysis/detail/module_map.hpp:106-254 | extending the span and inserting inside it compose to the stated effect at every address |
| ModuleMap.DroppedDuplicateAgrees | snail/analysis/detail/module_map.hpp:198-211 | dropping an exact duplicate changes no answer |
| ModuleMap.InsertKeepsAgreementExactlyWithoutPartialGap | snail/analysis/detail/module_map.hpp:171-253 | for loads in time order, the index still answers as the scan of the log if and only if the insert is a duplicate or leaves no partly covered gap |
| ModuleMap.IndexAgreesWithLog | snail/analysis/detail/module_map.hpp:106-276 | over every sequence of loads in time order without such gaps, strict lookup returns the payload of the last inserted module that holds the address and was loaded by then, or nothing |
| ModuleMap.PartialGapExample | snail/analysis/detail/module_map.hpp:171-253 | three modules after which the index and the log disagree |
| Xpress.RoundTrip | snail/common/ms_xca_decompression.cpp:16-103 | for every valid token list, decoding its encoding gives its expansion, or reports an insufficient output exactly when the expansion does not fit |
| Xpress.DecodesEveryEncoding | snail/common/ms_xca_decompression.cpp:16-103 | for every list of tokens that can be encoded, valid or not, decoding its encoding gives its expansion, or the error of the first bad token |
| Xpress.BadMatchIsInvalid | snail/common/ms_xca_decompression.cpp:92-92 | a match that refers to bytes in front of the output makes the data invalid, whatever stands behind it |
| Xpress.ShortEscapeIsInvalid | snail/common/ms_xca_decompression.cpp:73-84 | a 16 or 32 bit length that a shorter code could have said makes the data invalid |
| Xpress.DecodeInStep | snail/common/ms_xca_decompression.cpp:30-100 | the same for every list from every point of the encoding, whatever flag bits are left and whether a length nibble is pending |
| Xpress.ReadLengthOfTokenBytes | snail/common/ms_xca_decompression.cpp:53-90 | the length code reads back over all four levels, and the shared byte passes from one long match to the next |
| Xpress.ReadEscapeOfEscapeBytes | snail/common/ms_xca_decompression.cpp:70-87 | the 8, 16 and 32 bit escapes read back |
| Xpress.FromToBytes | snail/common/ms_xca_decompression.cpp:34-34 | little-endian numbers read back |
| Xpress.MatchIsPeriodic | snail/common/ms_xca_decompression.cpp:94-98 | a copied match repeats the bytes before it periodically, also where it overlaps itself |
| Xpress.Decode | snail/common/ms_xca_decompression.cpp:30-102 | output only grows and never exceeds the capacity |
| Xpress.DecompressXpress | snail/common/ms_xca_decompression.cpp:16-103 | the in-place loop ends as the decoding function does, writes its bytes, and touches nothing behind them |
| Xpress.DecodeMatchInPlace | snail/common/ms_xca_decompression.cpp:51-98 | one match in place: the state after it is that of the function, bytes behind it are kept |
| Xpress.CopyInPlace | snail/common/ms_xca_decompression.cpp:94-98 | the copy loop writes the overlapping copy and nothing else |
| CallTree.TreeCountsPrefixes | snail/analysis/analysis.cpp:114-138 | for every list of stacks there are distinct paths, one for each node, with totals counting the stacks that start with the path and selfs those equal to it |
| CallTree.AddStackCounts | snail/analysis/analysis.cpp:249-309 | adding one stack keeps every counter equal to its count |
| CallTree.FlowIsConserved | snail/analysis/analysis.cpp:252-304 | at the root and every node, per source: total is self plus the totals of the children |
| CallTree.SiblingsDiffer | snail/analysis/analysis.cpp:114-125 | children of one node stand for different functions |
| CallTree.FindChild | snail/analysis/analysis.cpp:119-126 | finds a child for the function if and only if there is one |
| CallTree.AddAllLive | snail/analysis/analysis.cpp:260-268 | every node of the tree was hit and stands for a known function |
| CallTree.TopChild | snail/server/snail_server.cpp:148-162 | the first of the children with the most totals |
| CallTree.HotPath | snail/server/snail_server.cpp:1110-1124 | the walk ends; it follows top children that outweigh the self hits, with increasing node ids and totals that do not increase, and stops where no child outweighs them |
| CallTree.HotPathOutweighs | snail/server/snail_server.cpp:173-178 | every step of a hot path goes to a child that has more hits than end in the node itself and that no sibling outweighs |
| CallTree.HotStepFacts | snail/server/snail_server.cpp:173-178 | a child of a node has a greater id and at most its total |
| FunctionFlow.CountStackBalances | snail/analysis/analysis.cpp:249-315 | a whole stack keeps callers and callees mirrored, each total equal to what flows in, and equal to self plus what flows out |
| FunctionFlow.CallKeepsBalance | snail/analysis/analysis.cpp:270-281 | a call hands the open end of the balance from caller to callee |
| FunctionFlow.CountFrameBalances | snail/analysis/analysis.cpp:317-330 | a sample with only a frame keeps the balance |
| FunctionFlow.CountStackCounts | snail/analysis/analysis.cpp:249-315 | every total, self and caller entry stays the number of times the function was met, ended a stack, or followed the caller |
| FunctionFlow.CountFrameCounts | snail/analysis/analysis.cpp:317-330 | the same for a sample with only a frame |
| FunctionFlow.SumTotalsOfBump | snail/analysis/analysis.cpp:272-281 | one more call adds one to the sum over the callers |
| StacksAnalysis.InternNames | snail/analysis/analysis.cpp:40-90 | interning keeps all earlier names, gives an id that stands for the frame, and new ids in order |
| StacksAnalysis.NamingIsInjective | snail/analysis/analysis.cpp:40-90 | different function ids stand for different pairs of module and symbol |
| StacksAnalysis.AddFramesSplits | snail/analysis/analysis.cpp:260-304 | the interleaved loop equals interning all names first and then counting in the tree and in the table |
| StacksAnalysis.RunBuildsTree | snail/analysis/analysis.cpp:239-309 | after every list of samples the tree is the prefix tree of the stacks of ids |
| StacksAnalysis.RunBalances | snail/analysis/analysis.cpp:239-365 | after every list of samples the function table is balanced and every counter in it is the count in the samples |
| StacksAnalysis.RunCountsNames | snail/analysis/analysis.cpp:187-365 | after every list of samples the nodes stand for exactly the non-empty prefixes of the stacks, by module and symbol names, and count the stacks that start with them and that are them |
| StacksAnalysis.CountsByName | snail/analysis/analysis.cpp:40-90 | counting by ids given along the way is counting by names |
| StacksAnalyzer.StacksAnalyzer.GetOrCreateModule | snail/analysis/analysis.cpp:40-61 | the id and the tables that interning the name gives |
| StacksAnalyzer.StacksAnalyzer.GetOrCreateFunction | snail/analysis/analysis.cpp:63-90 | the same for functions; a new one gets empty counters |
| StacksAnalyzer.StacksAnalyzer.GetOrAppendCallTreeChild | snail/analysis/analysis.cpp:114-138 | finds the first child for the function, or appends a node and links it |
| StacksAnalyzer.StacksAnalyzer.CountCall | snail/analysis/analysis.cpp:270-281 | updates hits, callees of the caller and callers of the callee, also when both are one function |
| StacksAnalyzer.StacksAnalyzer.VisitStack | snail/analysis/analysis.cpp:249-315 | the loop over the frames equals adding the stack |
| StacksAnalyzer.StacksAnalyzer.VisitBareFrame | snail/analysis/analysis.cpp:317-330 | equals adding the frame |
| StacksAnalyzer.StacksAnalyzer.AnalyzeStacks | snail/analysis/analysis.cpp:234-365 | the analysis of all samples of all sources, or, when cancelled, of exactly those before the answer that cancelled |
| ChunkedReading.ReadEvents | snail/perf_data/perf_data_file.cpp:138-175 | hands out exactly the records of the flat byte string in order, for every chunk size not smaller than the largest record, ends, and stops at a size below the header's |
| ChunkedReading.ReadWrittenEvents | snail/perf_data/perf_data_file.cpp:138-175 | records that were written with their sizes in the byte order of the file are handed out as they were written |
| ChunkedReading.SizeReadsBack | snail/perf_data/parser/event.hpp:107-107 | a header has a size if and only if its low byte comes first in little-endian data, and its high byte in big-endian data |
| ChunkedReading.WrittenRecordsParse | snail/perf_data/perf_data_file.cpp:149-175 | written records, put together, can be read and parse into these records |
| ChunkedReading.FlatParseOfRecords | snail/perf_data/perf_data_file.cpp:149-175 | a concatenation of records that give their own size parses into these records |
| ChunkedReading.FlatParseOnlyCuts | snail/perf_data/perf_data_file.cpp:149-175 | the parsed records put together are the data up to a first bad header, which is one with a size below the header's |
| ChunkedReading.FetchEvent | snail/perf_data/perf_data_file.cpp:153-169 | the peeked header and the record behind it, or a request for more data that loses nothing |
| ChunkedReading.ChunkedReader.ReadNextChunk | snail/common/chunked_reader.hpp:28-80 | sliding the window loses and repeats no byte; it says no more exactly at the end of the section |
| ChunkedReading.ChunkedReader.MoveLeftOver | snail/common/chunked_reader.hpp:32-37 | moves the left-over bytes to the front, also where source and target overlap |
| ChunkedReading.ChunkedReader.RetrieveData | snail/common/chunked_reader.hpp:82-99 | the next bytes, consumed unless peeked; nothing and no change of position when the chunk has fewer |
| ChunkedReading.ChunkedReader.KeepGoing | snail/common/chunked_reader.hpp:112-129 | reads on exactly when the chunk is exhausted or empty |
| Merging.MergeLength | snail/analysis/etl_data_provider.cpp:483-593 | a merge is as long as its sources together |
| Merging.TakeEarliest | snail/analysis/etl_data_provider.cpp:542-591 | taking the earliest element left keeps the part given out a time-ordered merge of prefixes |
| Merging.PoppedIsEarliest | snail/analysis/etl_data_provider.cpp:532-538 | the source at the top of the queue has the earliest element of all |
| Merging.StaysEarliest | snail/analysis/etl_data_provider.cpp:577-590 | a source that no queued one undercuts is still the earliest |
| Merging.PopFirst | snail/analysis/etl_data_provider.cpp:199-209 | takes out one entry with the least time |
| Samples.WindowIsIntersection | snail/analysis/etl_data_provider.cpp:55-87 | the window holds the times at which the thread lived and which the filter lets pass |
| Samples.ThreadSamples | snail/analysis/detail/etl_file_process_context.cpp:986-1039 | the window of the thread's samples of the event: those of the first storage that has the event, without one those of the timer if it is the timer's, else none; both ends of the window included |
| Samples.SamplesOfEvent | snail/analysis/detail/etl_file_process_context.cpp:1009-1025 | which recorded samples are those of the event, for all storages and positions |
| Samples.LowerBound | snail/analysis/detail/etl_file_process_context.cpp:1028-1029 | the first position not before the time |
| Samples.KeptIsPiece | snail/analysis/detail/etl_file_process_context.cpp:1028-1039 | in ordered samples a window is one piece |
| Samples.ProcessSamples | snail/analysis/etl_data_provider.cpp:483-593 | gives out a merge of the threads' windows: time-ordered, each thread's order kept, nothing lost or repeated; nothing for excluded processes and unknown sources |
| Samples.TakeFrom | snail/analysis/perf_data_data_provider.cpp:523-561 | the inner loop keeps the merge, returns the source to the queue, and makes progress |
| Samples.CountProcessSamples | snail/analysis/etl_data_provider.cpp:595-608 | the number of all samples in the windows of the threads |
| Samples.CountThreadSamples | snail/analysis/etl_data_provider.cpp:610-624 | the number of samples in the window of the thread |
| Samples.CountIsNumberOfSamples | snail/analysis/etl_data_provider.cpp:483-624 | however ties are broken, as many samples are given out as are counted |
| Samples.GivenOutIsRecorded | snail/analysis/etl_data_provider.cpp:509-530 | a sample is given out if and only if a thread of the process that is not excluded recorded it inside its window |
| EtlProcess.Process | snail/etl/etl_file.cpp:434-609 | emits a merge of the processors' traces, each processor's buffers one behind the other by rising sequence number: every event once, time-ordered; or reports the first bad buffer header |
| EtlProcess.BuffersComeInSequence | snail/etl/etl_file.cpp:523-590 | of two buffers of one processor, all traces of the one with the lower sequence number stand before all of the other in the processor's part of the output, and the traces of one buffer keep their order |
| EtlProcess.ReversedIsChain | snail/etl/etl_file.cpp:523-590 | buffers that are sorted to fall and read from the end are read by rising sequence number |
| EtlProcess.ChainIsOrdered | snail/etl/etl_file.cpp:542-605 | where every buffer is in time order, and none is later than one with a higher sequence number, so is the whole chain |
| EtlProcess.OfProcessorCounts | snail/etl/etl_file.cpp:488-503 | a processor gets the buffers that name it, each as often as it is in the file |
| EtlProcess.HeaderLimits | snail/etl/etl_file.cpp:447-496 | the limits of sequence number and buffer size are let through, and the order of the tests decides between errors |
| EtlProcess.ReadHeaders | snail/etl/etl_file.cpp:443-508 | distributes the buffers over the processors in file order, or reports the first thing wrong, the write behind the table included |
| EtlProcess.FirstErrorIs | snail/etl/etl_file.cpp:447-501 | the first error is that of the first bad buffer, or that there are too few buffers |
| EtlProcess.WritesBehindTableExactlyWhen | snail/etl/etl_file.cpp:490-503 | the program writes behind its table of processors if and only if the first bad header names the index one too high and nothing else is wrong with it |
| EtlProcess.BehindTableExample | snail/etl/etl_file.cpp:490-503 | one buffer with which it does |
| EtlProcess.SortBySequenceNumber | snail/etl/etl_file.cpp:523-524 | a permutation by falling sequence number |
| EtlProcess.Advance | snail/etl/etl_file.cpp:561-592 | processes the next event of the chain; goes on to the next buffer exactly when the current one is exhausted |
| EtlProcess.ExhaustedAtEnd | snail/etl/etl_file.cpp:571-575 | with traces padded to eight bytes, the offset test finds the end exactly behind the last trace |
| EtlProcess.TraceAtOffset | snail/etl/etl_file.cpp:309-318 | the aligned offset of a trace leads to that trace |
| EtlProcess.TakeFrom | snail/etl/etl_file.cpp:558-605 | the inner loop keeps the merge and every processor at its next event |
| EtlProcess.OpenChains | snail/etl/etl_file.cpp:514-540 | sorts the buffers of every processor and queues the time of its first event |
| Ticks.ToTicksIsFloor | snail/analysis/etl_data_provider.cpp:25-31 | without overflow, ticks are the floor of the exact quotient |
| Ticks.FromTicksIsFloor | snail/analysis/etl_data_provider.cpp:33-39 | without overflow, nanoseconds are the floor of the exact quotient |
| Ticks.ToTicksMonotone | snail/analysis/etl_data_provider.cpp:25-31 | longer durations are not fewer ticks |
| Ticks.FromTicksMonotone | snail/analysis/etl_data_provider.cpp:33-39 | more ticks are not a shorter duration |
| Ticks.ThereAndBack | snail/analysis/etl_data_provider.cpp:25-39 | to ticks and back never overshoots and loses less than one tick plus one nanosecond |
| Ticks.CutOffIsShownEarlier | snail/analysis/etl_data_provider.cpp:41-79 | a sample cut off by the minimal time is shown with an earlier time |
| Ticks.CutOffIsShownLater | snail/analysis/etl_data_provider.cpp:41-87 | a sample cut off by the maximal time is shown at or behind it |
| Ticks.ClampedExactlyWhen | snail/analysis/etl_data_provider.cpp:26-31 | for every filter time and frequency, the timestamp is the start of the session if and only if the unsigned product is less than the divisor, or the divisor is one and the product is at least 2^63 |
| Ticks.NegativeTimeClampedExactlyWhen | snail/analysis/etl_data_provider.cpp:60-73 | a filter time before the session, whose product fits 63 bits, is clamped to its start if and only if the frequency is a multiple of a thousand million |
| Ticks.NegativeTimeExample | snail/analysis/etl_data_provider.cpp:60-66 | one nanosecond before the session at ten million ticks a second becomes a timestamp far behind it |
| Ticks.LargeTimeExamples | snail/analysis/etl_data_provider.cpp:26-31 | for large products the frequency being a multiple of a thousand million is neither needed nor enough |
| Ticks.PerfTimestampIsSum | snail/analysis/perf_data_data_provider.cpp:34-38 | for every filter time the timestamp is the sum with the start if and only if that is a timestamp |
| Ticks.PerfFilterIsExact | snail/analysis/perf_data_data_provider.cpp:23-38 | a timestamp reaches the filter time if and only if it is shown at or behind it |
| Profiled.ProcessContext.Finish | snail/analysis/detail/etl_file_process_context.cpp:275-344 | ends for every parent relation, with the least set of keys that holds the targets and is closed under children; earlier entries are kept, new ones start at their key's time |
| Profiled.LeastIsDescendants | snail/analysis/detail/etl_file_process_context.cpp:300-343 | the least set consists of exactly the keys that a chain of children connects with a target |
| Profiled.ChildrenPerProcess | snail/analysis/detail/etl_file_process_context.cpp:279-294 | the map lists the children that were found, in whatever order the processes are visited |
| Profiled.ListedAreChildren | snail/analysis/detail/etl_file_process_context.cpp:279-294 | a key is in the list of its parent if and only if an entry that is not ignored has that parent at its start |
| Profiled.ProcessContext.FindChildren | snail/analysis/detail/etl_file_process_context.cpp:310-322 | the children under the very key, else under the process running at its time |
| Profiled.ProcessContext.NewProcesses | snail/analysis/detail/etl_file_process_context.cpp:305-335 | exactly the children of the keys added last that are not profiled yet |
| Profiled.FoundIsLastNotBehind | snail/analysis/detail/process_history.hpp:67-85 | the entry found for an id and a time is the last one not behind the time, and the first one if all are behind it |
| Profiled.ParentIsFound | snail/analysis/detail/etl_file_process_context.cpp:281-290 | a console host has no parent; every other entry has what its parent's id stood for at its start |
| Profiled.ProcessFollowsParent | snail/analysis/detail/etl_file_process_context.cpp:281-322 | every process but a console host follows its parent, and any other key under which that is found, unless the key has children of its own |
| Profiled.FollowerHasParent | snail/analysis/detail/etl_file_process_context.cpp:281-322 | nothing else follows a key |
| Framing.FrameReadsBack | snail/jsonrpc/transport/stream_message_writer.cpp:10-15 | a written frame is read back whatever its content, and nothing behind it is touched |
| Framing.HeaderReadsBack | snail/jsonrpc/transport/stream_message_reader.cpp:31-68 | for every list of header fields, with other fields, blank lines, spaces, zeros in front of the number and trailing text, the last length counts and reading stops behind the empty line |
| Framing.DecimalReadsBack | snail/jsonrpc/transport/stream_message_reader.cpp:43-47 | reading a printed number gives the number |
| Framing.CutContentIsPadded | snail/jsonrpc/transport/stream_message_reader.cpp:82-86 | a frame cut anywhere in its content is read as what is there, filled up with zeros |
| Framing.NeverReturnsExactlyWhen | snail/jsonrpc/transport/stream_message_reader.cpp:37-68 | for every stream, reading never returns if and only if every line, the unterminated last one included, gives a length or is ignored |
| Framing.RejectedExactlyWhen | snail/jsonrpc/transport/stream_message_reader.cpp:41-66 | for every stream, it is rejected if and only if the first line that ends the reading is invalid, and for that reason |
| Framing.EndedStreams | snail/jsonrpc/transport/stream_message_reader.cpp:37-68 | streams that end inside a header: two on which reading never returns, two that are rejected, one that is read as an empty message |
| Framing.ContentTypeIsSkipped | snail/jsonrpc/transport/stream_message_reader.cpp:49-52 | a content type line changes nothing, whatever it says |
| Framing.BadLengthIsRejected | snail/jsonrpc/transport/stream_message_reader.cpp:41-47 | a length that does not start with a digit, or does not fit 64 bits, is rejected as such |
| Framing.OtherLineIsRejected | snail/jsonrpc/transport/stream_message_reader.cpp:61-64 | a line that neither has one of the two names nor is empty, up to a carriage return, is rejected as such |
| Framing.HeaderBehindDecidingLine | snail/jsonrpc/transport/stream_message_reader.cpp:31-71 | for every stream whose first deciding line ends the header, the length is the last one that the lines before give, and the rest starts behind that line |
| Framing.PaddedExactlyWhenShort | snail/jsonrpc/transport/stream_message_reader.cpp:76-87 | for every stream, a message is read if and only if the first deciding line ends the header; it is a piece of the stream if and only if the last length given before does not exceed what is left, otherwise what is left is filled up with zeros |
| Framing.CutFrame | snail/jsonrpc/transport/stream_message_reader.cpp:31-87 | for every frame and every place where the stream may end in it, the outcome of reading |
| Framing.CutIsHarmlessExactlyWhen | snail/jsonrpc/transport/stream_message_reader.cpp:31-87 | a frame that is cut off is read as the whole message if and only if at most the header's last line feed and zeros of the content are missing |
| Framing.WriteThenRead | snail/jsonrpc/transport/stream_message_reader.cpp:76-87 | a reader gets from the stream the list of messages that a writer wrote |
| Framing.StreamMessageWriter.Write | snail/jsonrpc/transport/stream_message_writer.cpp:10-15 | appends the frame to the stream |
| Framing.StreamMessageReader.Read | snail/jsonrpc/transport/stream_message_reader.cpp:76-87 | the outcome and the rest of the stream are those of the reading function |
| Framing.StreamMessageReader.ReadHeaderLines | snail/jsonrpc/transport/stream_message_reader.cpp:31-68 | the loop over the lines reads the header as the function does, and reports where it would never end |
| Framing.StreamMessageReader.GetLine | snail/jsonrpc/transport/stream_message_reader.cpp:39-39 | takes exactly the first line and its line feed out of the stream |
| Wildcard.TranslationKeepsMeaningExactlyOnOneLine | snail/common/wildcard.cpp:8-44 | the expressions of all patterns agree with the patterns on a string if and only if the string has no line end |
| Wildcard.RegexMeansWildcard | snail/common/wildcard.cpp:15-44 | for every pattern and string, the expression matches what the pattern covers without stretching over line ends |
| Wildcard.RegexParses | snail/common/wildcard.cpp:8-44 | the text parses as a regular expression, to the items of the pattern with runs of stars collapsed and special characters literal |
| Wildcard.EscapedParses | snail/common/wildcard.cpp:8-13 | an escaped or plain character parses to itself |
| Wildcard.TwoStarsAreOne | snail/common/wildcard.cpp:27-30 | a further star changes nothing |
| Wildcard.WildcardToRegex | snail/common/wildcard.cpp:15-44 | the loop builds the text of the expression, which parses to the items of the pattern |
| Storage.DocumentStorage.GetTotalSamplesCounts | snail/server/detail/storage.cpp:46-67 | the counts, kept or not, are those of a fresh count under the current filter |
| Storage.DocumentStorage.GetProcessAnalysis | snail/server/detail/storage.cpp:69-86 | the analysis kept for the process, else a new one that is then kept, with the samples taken for it and the number of answers it had; it is that of the samples visited, and of all samples if the answers did not run out before them |
| Storage.DocumentStorage.GetSortedFunctions | snail/server/detail/storage.cpp:88-154 | the list kept for the order, else a new one that is then kept beside the others: all functions of the kept analysis once, in the order asked for; for that analysis the same holds, cut short or not |
| Storage.DocumentStorage.ApplyFilter | snail/server/detail/storage.cpp:245-252 | a new filter drops everything kept, the same one nothing; what is kept stays coherent |
| Storage.DocumentStorage.ReadDocument | snail/server/detail/storage.cpp:212-229 | replaces the data only; what is kept is coherent if and only if it fits the new data |
| Storage.DocumentStorage.Analyze | snail/server/detail/storage.cpp:75-83 | the analysis of the visited samples of all sources; it is cancelled if and only if the answers run out before the samples that are given out |
| Storage.StreamsLength | snail/server/detail/storage.cpp:75-83 | however ties are broken, the sources give out as many samples |
| Storage.FreshCountIsGivenOut | snail/server/detail/storage.cpp:46-67 | the count of a source is the number of samples that all processes together give out of it |
| Storage.NotCutShortIsFresh | snail/server/detail/storage.cpp:75-83 | an analysis whose answers did not run out is one of all samples |
| Storage.AnyDataFitExactlyWhenNothingKept | snail/server/detail/storage.cpp:212-229 | any data may be read without making what is kept wrong if and only if nothing is kept |
| Storage.SortFunctions | snail/server/detail/storage.cpp:104-147 | a permutation in which no function stands behind one that it comes before |
| Storage.SortedRises | snail/server/detail/storage.cpp:104-147 | in a sorted list the total or self hits of the source rise, and for equal hits, or by name, the names do, character by character |
| Storage.LessTransitive | snail/server/detail/storage.cpp:123-147 | the comparisons by name and by hits then name are transitive |
| Storage.ReadTwice | snail/server/detail/storage.cpp:212-229 | reading a document again can leave a stale count |
| CacheRuns.Serve | snail/server/detail/storage.cpp:46-154 | over every sequence of filter changes and queries: counts are fresh, and every other answer is read off what is then kept for the process, the analysis itself or the kept list of its functions; what is kept is never replaced while the filter stays, and each kept analysis is that of the samples taken for it, as far as they were visited |
| CacheRuns.OneAnalysisPerFilter | snail/server/detail/storage.cpp:69-154 | over every run, all answers for a process between two filter changes come from one analysis: returned analyses are equal, lists in the same order are equal, and a list is a sorted list of the functions of the analysis returned before or after it |
| CacheRuns.ServeOne | snail/server/detail/storage.cpp:245-292 | the same for one request: what is kept afterwards, from what was kept before and the request, and the answer read off it |
| CacheRuns.FirstQueryCounts | snail/server/detail/storage.cpp:75-84 | over every run, the analysis kept for a process is the one that its first query since the filter changed left, with that query's number of answers |
| CacheRuns.CachesFollowPlan | snail/server/detail/storage.cpp:69-154 | which analyses are kept, under which filter and with how many answers, follows from the requests alone |
| CacheRuns.AllFreshExactlyWhen | snail/server/detail/storage.cpp:69-86 | over every run, all kept analyses that answers are read off are fresh if and only if no first query missed a sample that leaves a trace; and, where every sample does, if and only if none was cut short, a condition on data and requests |
| CacheRuns.FreshExactlyWhenRestIsBare | snail/server/detail/storage.cpp:75-83 | an analysis is one of all samples if and only if the samples not visited have neither stack nor frame |
| CacheRuns.FreshExactlyWhenNotCutShort | snail/server/detail/storage.cpp:75-83 | where every sample has a stack or a frame: if and only if the answers did not run out before the samples |
| CacheRuns.SelfsAreCountedSamples | snail/analysis/analysis.cpp:296-330 | the self hits of all functions and the root together are the number of samples that have a stack or a frame |
| CacheRuns.CancelledIsKept | snail/server/detail/storage.cpp:69-86 | a second query that is not cancelled gets the analysis of the first one, which was, and it is not fresh |
| EndToEnd.FreshAnalysisCountsRecorded | snail/analysis/analysis.cpp:187-365 | in every fresh analysis, however ties were broken, the hits of each node are the numbers of recorded samples inside the filter and the threads' lives whose stack starts with, or is, its path |
| EndToEnd.MergeKeepsCounts | snail/analysis/etl_data_provider.cpp:532-592 | a merge holds as many stacks along a path as its sources together |
| EndToEnd.StreamsCountKept | snail/analysis/analysis.cpp:234-248 | counting in the events of all sources is counting in the recorded samples |

## Left out

- File, socket, pipe and console input and output, ZIP extraction, symbol lookup: streams are byte sequences, symbol names come with the samples.
- The views of trace and perf records, and the dispatch of events to observers: events are values with a time and a size.
- The thread pool and its condition variables: the pool is a bag of running tasks, waiting is a step that is not enabled.
- Progress reports, and the cancellation of the hot-path walk, of reading perf.data events and of processing trace files; cancellation of the stack analysis is modelled.
- Files, line numbers and per-module counters of the stack analysis: the same pattern as the counters that are modelled.
- The JSON around the hot path, including the entry that sums up the remaining callers: only the visited nodes are modelled.
- Paging of sorted functions, and the registry of open documents: they select from results that are modelled.
- The choice of all processes with samples when there is no explicit target.
- ModuleMap.ModuleMap.Insert: asks for a module that is not empty and does not reach the end of the address space, where the sum of base and size would wrap.
- ChunkedReading.ReadEvents: asks that the file holds the whole section and that no record is larger than the chunk or cut off at the end of the section. The source throws in the first case and loops for ever in the second. In the third it takes the bytes left over from the end of a buffer that need not be full, so it may hand out stale bytes, stop, or loop for ever.
- Xpress.RoundTrip: does not cover compressed data that ends inside a token or right behind a flag word with a clear bit, where the source reads beyond its input (the model reports `ReadPastEnd`).
- EtlProcess.Process: asks that traces fill their buffers, and that the traces of a processor come in the order of time when its buffers are read by their sequence numbers, as a merge of them needs; decompression of buffers is modelled by `Xpress` alone. What happens after a write behind the table of processors is not modelled (`BehindTable` ends the reading).
- Samples.ThreadSamples: asks that the samples of a thread were recorded in the order of time, as the binary searches of the source do.
- Ticks.ToTicksIsFloor: is about products that fit the signed range, as the source's note on overflow does.
- Storage.DocumentStorage.GetProcessAnalysis: filters carry absolute timestamps, the conversion of which is in `Ticks`; the process has to be one of the document's, as the source's lookup throws for others.
- Framing.WriteThenRead: lengths are those of a 64-bit size; that a string of that length cannot be allocated is not modelled. Bytes are characters.
- Wildcard.RegexMatches: the meaning of regular expressions is that of ECMAScript for the constructs that occur, on narrow characters, where a dot leaves out line feed and carriage return.
