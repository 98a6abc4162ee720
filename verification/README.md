# gospan, modelled and proved

gospan is an in-process tracer. Program threads start spans, attach attributes to
them, fail them and end them; every such call pushes an event into a bounded queue.
One writer goroutine drains the queue, keeps per-name summaries and hands batches to
a sink: a SQLite file that can lose a commit, or a log sink that emits one record per
finished span. This project models that path from the call on a span to the row in
the file and proves what survives it, for every interleaving, every pattern of drops
and every pattern of failing sink calls.

## How the model is laid out

| files | part of the program |
|---|---|
| `Events` | events, attribute values, 64-bit wrap-around, outcomes of a sink call |
| `Protocol` | tracer, spans, queue, `Close` and writer as one step system: any number of threads, one step per atomic operation, lock operation or channel operation; sink calls return, fail or panic as they like |
| `RunHistory` | an observer who sees only a run's actions, and the proof that the tracer's spans are what that observer says |
| `SpanLife`, `EventOrder`, `Fates`, `Delivery`, `Gauges`, `Progress`, `Reach`, `Shutdown`, `Forest` | what every step keeps, and what follows for every reachable state and every run |
| `Tables`, `RowMeaning` | the file as finite maps and the reference meaning of a stream: one event at a time, written straight to the tables; then the same meaning without folding |
| `Coalescing`, `SqliteSink` | the sink's pending buffers as values, and the sink itself: heap-allocated rows completed in place through `pendingByID`, one transaction per flush, a two-level name cache |
| `TruthfulRows`, `TruthfulAttrs`, `TruthfulFile`, `TruthfulSummary`, `TruthfulRecords` | protocol and destinations composed: what the file, the summary and the log say about the tracer's spans |
| `FinishedFile` | Close and the file: what the tables hold once the writer is gone |
| `Histogram`, `Ranks`, `Summary`, `SummaryBook` | the duration histogram, nearest-rank percentiles, the accumulator objects and the book of at most 4096 names |
| `SlogSink`, `SlogRecords`, `CrossSink` | the log sink, what its records are worth, and when they agree with the file |
| `Overhead` | the racy rolling average of tracer cost |

A step of a thread is one of the constructors of `Protocol.Local`, `Send`, `Shut` or
`Write`; `Protocol.Run` runs a list of steps from the tracer that `New` returns, and
`Protocol.Reachable` is every state some list reaches. The history parts of a state
(`queued`, `origins`, `carriers`, `cut`, `straddling`, `unsent`, `calls`) record what
happened and never decide a step.

The SQL driver is a parameter: it says whether Begin works, after how many statements
one fails, and whether Commit works. A transaction that does not commit changes
nothing. Timestamps are readings of a clock that never goes back.

## Where the code does not do what is promised

* `docs/DESIGN.md:116` promises that Close drains and finishes the file with zero
  loss. Two things can go wrong. A send that has read `closed` as false and is still
  under way when Close swaps the flag can land in a queue nobody reads any more, or
  give up. And a Flush that fails drops what it should have committed. While flushes
  work, Close finishes the file in every continuation exactly when no send is under
  way at the swap (`FinishedFile.CloseFinishesTheFileIffQuiet`); in general a finished
  file holds all that was queued exactly when nothing was stranded in the queue and no
  failed Flush had anything to lose (`FinishedFile.FinishedFileIsAccountedFor`).
* The forest of spans assumes one tracer. Start takes whatever span its context
  carries (`tracer.go:246`), also one of another tracer, and then a span names a parent
  its file does not hold and a trace that is no root of it
  (`Forest.ForeignParentBreaksTheForest`). The spans are a forest whose trees are the
  traces if and only if no span was started under another tracer's span
  (`Forest.ForestIffNoForeignParent`).
* The mean is the exact average precisely while the total duration fits in an int64;
  past that the running total wraps (`Summary.MeanIsExactIffTotalFits`).
* A sink whose Close panics leaves `closeErr` nil, so callers of Close see success
  (`Reach.ShutdownDelivers`, through `Delivery.CloseResult`).
* An end time of 0 and an empty error message are stored as NULL
  (`TruthfulRows.RowsAreTruthful`); with the clock past the epoch the first cannot
  happen (`TruthfulRows.NullEndMeansNoEnd`).
* The log record and the rows of a span differ when a group is rewritten with fewer
  members, or when a plain key spells a group's leaf path
  (`CrossSink.RewrittenGroupDisagrees`, `CrossSink.CollidingKeyDisagrees`).
  `CrossSink.AgreesIffSettled` says exactly when they agree; without colliding paths
  it comes down to no rewrite dropping a leaf (`CrossSink.AgreesIffCovers`).

## Model

| member | source | states |
|---|---|---|
| SqliteSink.Materialize | sqlite/write.go:42-208 | For any stream cut into batches and flushes anywhere, with any transaction failing anywhere, the file read through the spans-names join equals the one-event-at-a-time fold over exactly the committed windows; every span row resolves its name; the name cache is the inverse of the committed names table; a commit succeeds whenever the driver serves it or nothing is pending, and with something pending not unless Begin and Commit work |
| SqliteSink.Drive | sqlite/write.go:42-125 | The same as an invariant of the live sink after every request: pending buffers are the coalescing of the open window, tables are the fold of the committed ones, and every answer is what the driver made it |
| SqliteSink.Serve | sqlite/write.go:42-125 | One WriteBatch or Flush moves the sink from reflecting its call history to reflecting the longer one; batches are always taken, and a commit fails only when the driver makes it |
| SqliteSink.Sink.WriteBatch | sqlite/write.go:42-86 | Absorbs the batch into the buffers, never fails, leaves file and cache alone, and keeps pendingByID aliasing the last queued row of each span |
| SqliteSink.Sink.QueueAttrs | sqlite/write.go:55-61 | One event's attributes join the pending buffer flattened, rows and aliasing untouched |
| SqliteSink.Sink.CompleteInPlace | sqlite/write.go:62-67 | Writing through pendingByID changes the span's last queued row and no other |
| SqliteSink.Sink.AppendAttrs | sqlite/write.go:55-61 | Appends exactly the flattened leaves of the attribute tree, depth first |
| SqliteSink.Sink.Flush | sqlite/write.go:93-118 | All of the window or none of it; buffers empty either way; an empty window succeeds untouched; a transaction with a working driver and enough statements does commit; success with something pending means Begin and Commit worked |
| SqliteSink.Sink.Transact | sqlite/write.go:99-117 | The cache learns this flush's names only if the commit happened, and is unchanged otherwise |
| SqliteSink.Sink.ClearPending | sqlite/write.go:120-125 | Every pending buffer and the per-flush name cache are empty afterwards |
| SqliteSink.Sink.WriteSpans | sqlite/write.go:144-162 | Inside the transaction the joined table becomes the upsert fold of the queued rows in queue order |
| SqliteSink.Sink.WriteAttrs | sqlite/write.go:164-180 | Inside the transaction the attrs table becomes the replace fold of the queued attribute rows |
| SqliteSink.Sink.InternName | sqlite/write.go:187-208 | Returns a rowid that holds the name, hides or renames no span, and cannot fail on UNIQUE: with statements left it always succeeds |
| SqliteSink.Tx.InsertName | sqlite/sqlite.go:38-41 | Fails exactly on a spent driver or a duplicate name; otherwise takes an unused rowid |
| SqliteSink.Tx.UpsertSpan | sqlite/write.go:132-138 | A conflicting id keeps its identity columns and takes end time, status and error |
| SqliteSink.JoinUpserts | sqlite/write.go:132-159 | The statement on the stored table is the upsert on the joined one |
| SqliteSink.JoinIgnoresNewNames | sqlite/sqlite.go:70-74 | A name under an unused rowid changes nothing a reader sees |
| Coalescing.CoalescingRefines | sqlite/write.go:42-138 | Committing the coalesced buffers has the effect of applying the window's events one by one |
| Coalescing.AbsorbRefines | sqlite/write.go:44-83 | The same for a single event, whatever is already pending |
| Coalescing.CompletingInPlace | sqlite/write.go:63-67 | Completing a span's last pending row in place is an upsert queued behind everything else |
| Coalescing.StartAndEndShareARow | sqlite/write.go:11-13 | A Start and an End in one window cost one row, not two |
| RowMeaning.RowExists | sqlite/write.go:44-80 | A row exists exactly for the spans whose Start or End is in the stream |
| RowMeaning.RowColumns | sqlite/write.go:132-138 | Identity columns come from the first Start or End, end time, status and error from the last |
| RowMeaning.LastAttrWins | sqlite/write.go:25-27 | The last write per span and key wins |
| RowMeaning.StartBehindEndErases | span.go:71-74 | Why sinks need strict per-span order: a Start behind its End erases the end time |
| Tables.CellRoundTrip | sqlite/write.go:240-268 | Every attribute value is recovered from its cell and kind, unsigned values above MaxInt64 and the non-numbers of IEEE 754 included |
| Tables.CellFormat | sqlite/write.go:240-268 | The stored kind number and value of every kind of attribute value |
| Tables.FlattenIsDottedLeaves | sqlite/write.go:214-230 | The walk emits exactly the leaves of the attribute tree, in order, under their dotted paths; keyless groups add no level, keyless leaves are dropped |
| SpanLife.VerdictIsLastFail | span.go:90-120 | The verdict of a span's lock-ordered calls is its last Fail before the first End; without one it is OK |
| SpanLife.StepKeepsGood | span.go:66-169 | Every step keeps mutual exclusion per span, each span equal to what its lock-ordered calls make it, and the shape of the forest |
| RunHistory.RunIsTold | tracer.go:232-273 | In any run the spans are exactly what the callers asked for: which exist and their ids, counted up from 1 in minting order; name and attributes as given to Start; no parent and an own trace under no span, that parent and its trace under one of the tracer's spans, parent and trace as given under a foreign one; the calls on each span in the order they took effect under its mutex; the start time as read by its Start and the end time as read by its End |
| RunHistory.SpansAreAsRun | tracer.go:244-261 | The same for any run that leads to a given state |
| RunHistory.ReadingsGoForward | tracer.go:200-204 | Clock readings never go back along a run |
| RunHistory.EndTimeIsReadInItsEnd | span.go:139-163 | A span's end time is the clock reading its End took after taking the mutex, and no earlier than any reading taken before, every start by then included |
| RunHistory.StartedBeforeEnded | span.go:153-163 | A span created before another one's End was invoked started no later than that other one ended |
| Fates.EveryCallHasOneFate | span.go:77-87 | A Start, a SetAttrs that found its span open and the End that ended it each have their event queued, or are on record as refused, dropped or given up, never both; dropped counts the record, and only a closed tracer refuses |
| Fates.RestingSpansAreSettled | span.go:77-87 | With nobody inside its mutex every call on a span has met its fate |
| Progress.SendsFailForAReason | tracer.go:337-355 | Wherever a run drops an event the queue is exactly full under the drop policy, and wherever it gives one up stop is closed under the blocking policy |
| Progress.ThreadsAreNeverStuck | span.go:77-78 | Every thread can take its next step unless it waits for a mutex another thread is inside of, or sends to a full queue under the blocking policy while stop is open |
| Progress.StartedSpansAreHandedOut | tracer.go:273-283 | When its Start has returned, a span can be used |
| Progress.IdleThreadsCanCall | span.go:66-69 | Start works under no span, a foreign one or one handed out; a method works on any span handed out, SetAttrs with at least one attribute |
| Progress.SelectArms | writer.go:30-75 | A queued event can always be received, the tick and a closed stop are seen in the main loop, the last Flush comes only with the queue empty, and a batch goes on only when it holds 1024 events or nothing is left to add |
| EventOrder.QueueIsStrictlyOrdered | span.go:71-74 | Per span the queue holds Start first, at most one End and nothing after it, for any number of threads calling |
| EventOrder.QueuedEventsAreTrue | span.go:82-87 | Every queued event is word for word what its span has to say: the minted identity, a SetAttrs that came before any End, or the first End with the verdict of the last Fail that took the mutex before it; no Attrs event is empty; and the span is what the run's callers asked for |
| EventOrder.QueueFollowsTheMutex | span.go:77-87 | Two queued events of a span come from different calls, in the order those took the mutex |
| Reach.DeliveryIsFirstInFirstOut | writer.go:30-75 | The concatenation of WriteBatch calls is a prefix of everything queued, in order; the summary saw the same events; batches hold 1 to 1024 events; the queue never exceeds its capacity |
| Reach.EventsAreConserved | tracer.go:330-356 | Sends past the closed check = dropped + lost to stop + queued + in the batch + written + in failed batches + still under way, in every reachable state |
| Reach.GaugesAreExact | span.go:139-149 | Up to the threads between two adds of one Start or End, spansInFlight is the number of spans not yet ended, tracesInFlight the number of open root spans, started and completed count the spans and the ended spans, and spansInFlight is starts minus ends; neither gauge is ever negative, however many Ends hit a span |
| Reach.ShutdownDelivers | writer.go:41-60 | At exit the sink saw (WriteBatch or Flush)\*, Flush, Close whatever its calls returned; everything queued before the closed flag was delivered once; leftovers belong to sends that had read the flag as false, one each; every Close returning through done returned the sink's Close error |
| Reach.StepInvariant | tracer.go:189-356 | The whole invariant behind these results is kept by every step of every thread |
| Shutdown.EveryStepShrinks | writer.go:41-58 | In the stop branch every send or writer step strictly shrinks a measure of sends under way, queue length and writer stage, and no other step grows it |
| Shutdown.ShutdownIsBounded | writer.go:41-60 | No interleaving out of the stop branch holds more send and writer steps than that measure, and using it up means done is closed |
| Shutdown.WriterCanStep | writer.go:47-58 | A writer in the stop branch can always step, whatever the queue holds and however sink calls come back |
| Shutdown.SenderCanStep | tracer.go:337-355 | A sender always has an enabled step under the drop policy, and under the blocking policy once stop is closed |
| Shutdown.WriterFinishes | writer.go:41-60 | With stop closed the writer alone reaches its exit from any stage |
| Shutdown.CloseIsLosslessIffQuiet | tracer.go:174-198 | No continuation of Close loses an event on its way to the sink if and only if no send has passed the closed check and is still under way at the swap |
| Shutdown.BusyCloseCanLose | tracer.go:334-346 | For every send under way at the swap, a run that strands an event in the queue although every sink call works |
| FinishedFile.CloseFinishesTheFileIffQuiet | tracer.go:174-198 | Every finished continuation of Close in which flushes work leaves in the file all that was durable or pending in the sink and all that was queued and not yet delivered, with nothing given up, if and only if no send is under way at the swap |
| FinishedFile.FinishedFileIsAccountedFor | sqlite/write.go:88-92 | Once done is closed, sends past the closed check = dropped + given up + stranded + lost to a failed Flush + committed + still under way; the file holds all that was queued if and only if nothing was stranded and no failed Flush had anything to lose |
| FinishedFile.WorkingFlushesCommitEverything | writer.go:53-56 | With every Flush a success the finished file holds all that was delivered |
| FinishedFile.FinishedMeansEverything | writer.go:53-56 | If no Flush ever failed, a finished Close means the file holds all that was ever queued |
| FinishedFile.BusyCloseLeavesOut | tracer.go:334-346 | For every send under way at the swap, a finished continuation with every sink call working whose file misses something |
| Forest.TraceIsItsRoot | tracer.go:244-261 | Ids are positive; a parent of this tracer is older and of the same trace; a span's trace ID is the ID of the root its parents lead to if and only if they do not lead to a span started under another tracer's |
| Forest.ForestIffNoForeignParent | tracer.go:244-253 | The parents of every span lead to a root that is its trace if and only if no span was started under another tracer's span |
| Forest.ForeignParentBreaksTheForest | tracer.go:246-248 | A reachable state in which a span's parent and trace are unknown to the tracer |
| TruthfulRows.CommittedAreQueued | sqlite/write.go:88-118 | Committed events are queued events in queue order, strictly ordered per span, under any drops and failed flushes |
| TruthfulRows.RowsAreTruthful | sqlite/write.go:62-80 | A span has a row exactly if its Start or End was committed; identity columns are those minted; end time, status and error are there exactly if the End was committed, and are the verdict of the last Fail before the first End, an Error stored as 1, a Canceled as 2, everything else as 0; the span is what the run's callers asked for |
| TruthfulRows.NullEndMeansNoEnd | sqlite/sqlite.go:64-74 | With the clock past the epoch end_ns is NULL exactly when no End was committed, and never before start_ns otherwise |
| TruthfulAttrs.AttrsAreTruthful | sqlite/write.go:55-61 | A stored attribute is what one call gave its span before any End, namely the last committed event that says anything about the path |
| TruthfulFile.WriteTrace | sqlite/write.go:42-208 | Run the sink any way the driver lets it be: if what it answered is what the writer of a reachable tracer got, final Close aside, then every row, end time and attribute of the file is truthful about that tracer |
| TruthfulFile.HistoriesCanBeDriven | sqlite/write.go:42-118 | Every history this sink can give is brought about by some requests, so the composition leaves none out |
| TruthfulFile.EveryTraceCanBeWritten | sqlite/write.go:42-208 | For every reachable tracer whose sink answered as this sink can, there are requests whose every run writes a truthful file |
| TruthfulSummary.SummaryIsTruthful | summary.go:64-104 | A tracked name aggregates exactly the dequeued Ends of that name, each span at most once, with its own end time minus its own start time as duration and its own verdict, whatever the batches and however the sink fared |
| TruthfulRecords.RecordsAreTruthful | slog_sink.go:53-112 | One record for each End delivered, in delivery order; each span at most one, under its minted identity, with its own duration and verdict; every attribute in it was given by a call that found the span open |
| Histogram.BucketsTile | summary.go:106-109 | Each bucket starts where the one before it ends |
| Histogram.BucketsCoverInt64 | summary.go:106-109 | The buckets run from 1 to exactly 2^63; every int64 duration gets an index below 247 |
| Histogram.IndexIff | summary.go:192-205 | A duration is counted in a bucket exactly if it lies in that bucket's interval |
| Histogram.IndexMonotone | summary.go:192-205 | Longer durations never get a smaller index |
| Histogram.MidpointInverts | summary.go:210-223 | The index of a bucket's midpoint is that bucket, for all 247, with no overflow on the way |
| Histogram.MidpointIsClose | summary.go:207-209 | The midpoint is within 12.5% of every positive duration in its bucket |
| Ranks.RankBucketHoldsTheRank | summary.go:178-184 | The first bucket whose running count reaches the rank is the bucket of the exact nearest-rank value of the sorted data |
| Ranks.PercentileIsAccurate | summary.go:159-184 | After clamping the reported value is within an eighth of the exact nearest-rank value, within 1 ns of a zero one, for every rank of every nonempty data set |
| Ranks.UpToIgnoresOrder | summary.go:136 | Counting by bucket does not depend on the order of recording |
| Summary.DurationOf | summary.go:124-127 | End minus start wherever an int64 can hold it, 0 for an end before its start, wrapped beyond |
| Summary.Rank | summary.go:174-177 | The least rank, from 1, that reaches the given fraction of the count: the nearest rank |
| Summary.NearestRankIsUnique | summary.go:174-177 | There is only one such rank |
| Summary.SortedOrderExists | summary.go:171-172 | Any durations have a sorted order, so what is said of the nearest-rank value is said of something |
| Summary.MeanIsExactIffTotalFits | summary.go:158 | The mean equals the exact average, rounded down, if and only if the total fits in an int64 |
| Summary.MeanBetween | summary.go:158 | While the total fits, Min <= Mean <= Max |
| SummaryBook.NextTells | summary.go:123-145 | Recording one more End keeps every field equal to what it says about all Ends recorded |
| SummaryBook.Accumulator.Record | summary.go:123-145 | Updates the fields and the histogram array in place; afterwards they describe the recorded Ends plus this one |
| SummaryBook.Accumulator.Walk | summary.go:178-185 | The walk stops in the bucket of the rank for every rank there is; its final fallback is for ranks beyond the count and for nothing else |
| SummaryBook.Accumulator.Percentile | summary.go:173-186 | With anything recorded the fallback is never reached and the walk stops at the nearest rank of the fraction, the least rank that reaches it |
| SummaryBook.Accumulator.Snapshot | summary.go:147-169 | Exact counts; Min and Max are the shortest and longest of the recorded spans' end minus start times, an end before its start counting as 0; the mean exact if and only if their total fits; Min <= P50 <= P90 <= P99 <= Max; each percentile close to the exact value at the rank r with 100(r-1) < 50, 90 or 99 times the count <= 100r |
| SummaryBook.PercentilesInOrder | summary.go:159-166 | Clamped bucket walks for 50, 90 and 99 are ordered, inside the extremes and each accurate |
| SummaryBook.LedgerIsAllOrNothing | summary.go:84-103 | At most 4096 names; a tracked name holds every End ever seen under it; counts plus summaryDropped make up every End |
| SummaryBook.EnterAllConcat | writer.go:36-38 | Cutting the stream into batches makes no difference to the book |
| SummaryBook.Book.RecordCompletedSpans | summary.go:69-104 | Feeds a batch to the accumulators; the book afterwards is the fold over the batch, batches without Ends changing nothing |
| SlogSink.MergeLastWins | slog_sink.go:114-129 | Each key once, in order of first appearance, with the last-written value |
| SlogSink.LastWinsIsUnique | slog_sink.go:114-116 | Only one sequence fits that description |
| SlogSink.Sink.WriteBatch | slog_sink.go:53-84 | The open map and the emitted records afterwards are the fold of the batch over the state before |
| SlogSink.Sink.Emit | slog_sink.go:89-112 | Adds exactly one record, with the merged attributes of the span if it is tracked |
| SlogSink.ObserveAllConcat | slog_sink.go:53-84 | Cutting the stream into batches makes no difference |
| SlogRecords.OpenIsBounded | slog_sink.go:28-37 | The open map never exceeds 65536 entries on any stream, endless lost Ends included |
| SlogRecords.OneRecordPerEnd | slog_sink.go:86-112 | Every End becomes exactly one record, in stream order, with its name, ids, duration, level, status and error, whatever was lost before it |
| SlogRecords.NoEntryOutlivesItsEnd | slog_sink.go:39-41 | Under strict per-span order no entry survives its span's End |
| SlogRecords.ExactIffRoom | slog_sink.go:62-70 | Every span in flight is tracked with all it was given, at every point, if and only if there are never more than 65536 in flight |
| SlogRecords.RoomMakesCompleteRecords | slog_sink.go:95-101 | With that room the records are those of a sink without a cap |
| SlogRecords.RecordCarriesEverything | slog_sink.go:14-17 | In per-span order and with room, a span's record carries every attribute it was ever given, duplicates merged |
| CrossSink.TableHoldsLastLeaves | sqlite/write.go:167-177 | A span's rows in the attrs table are the last-wins fold of all leaf paths it was ever given, in event order |
| CrossSink.AgreesIffSettled | slog_sink.go:117-129 | With nothing lost, a span's record and its rows agree leaf by leaf and cell by cell if and only if each path's last write says what the latest-appearing key whose last value holds the path says |
| CrossSink.AgreesIffCovers | slog_sink.go:117-129 | Where no two keys share a leaf path, that is: if and only if no rewrite of a key dropped a leaf an earlier value had |
| CrossSink.FlatRecordsAgree | slog_sink.go:99-101 | For flat attributes with keys the record is last-wins and equals the rows key by key |
| CrossSink.RewrittenGroupDisagrees | slog_sink.go:120-124 | A span given two groups under one key: the table keeps a leaf the record lost |
| CrossSink.CollidingKeyDisagrees | slog_sink.go:120-124 | A span with a plain key spelling a group's leaf path: the record ends on the older value |
| Overhead.Gauge.RecordOverhead | stats.go:83-90 | The first sample is taken as it is; after that a sample moves the average toward it, never past it, by exactly an eighth of the distance rounded down |
| Overhead.FoldMovesToward | stats.go:83-90 | A sample moves the average toward it by an eighth of the distance rounded down, never past it, not at all below a distance of 8, and nothing overflows |
| Overhead.ConstantSampleConverges | stats.go:71-77 | A constant sample brings the average within 8 of it and keeps it there |
| Overhead.AverageStaysInHull | stats.go:79-82 | However loads and stores race, the average is unset or lies between two samples really taken |

## Left out

- SqliteSink.Tx: the driver is atomic; a Commit that returns an error is taken as not durable and Rollback as working. Prepare, Exec and LastInsertId each cost one statement that may fail.
- SqliteSink.Sink.WriteBatch: a value whose formatting panics would leave a batch half absorbed; resolving LogValuers and formatting `KindAny` values are opaque and total here, a Time is its UnixNano value.
- SummaryBook.Accumulator.Percentile: the rank is an exact ratio with a ceiling, where the code multiplies floats; the walk and its accuracy are proved for every rank.
- SummaryBook.Accumulator.Snapshot: its ranks are those exact ones; it asks for fewer than 2^63 recorded Ends, as the code's own comment does.
- Tables.CellRoundTrip: a float64 is a real number, NaN or an infinity, with no negative zero; what SQLite itself does with a NaN is the driver's.
- Shutdown.ShutdownIsBounded: starts in the writer's stop branch. Before it the select may keep choosing the queue or the ticker; that it eventually takes the stop case is the scheduler's fairness and not claimed.
- SlogSink.Sink.Emit: handing a record to the logger cannot fail or panic here, and the logger's own level filter is not modelled.
- Events.ID: span and name ids are unbounded naturals; minting 2^63 of them is not modelled.
- The wall clock, tickers and the sampling of overhead in Start and End: timestamps and flush ticks come as the environment likes; samples arrive at any time.
- The summary's mutex: the writer is the only one that updates, readers take a snapshot between its steps.
- `warn`, `guard`, the logger and its rate limit; `errors.Is` and `Error()` (a Fail is a classified pair made before the lock; Fail(nil) is no call).
- Nil receivers, `SetDefault`, `Default`, `Track`, option validation, `multi_sink.go`: wrappers and plain loops that would add only easy members.
- `sqlite.New`, pragmas, file naming, read handles, the meta table, SQL scripts, the demo command and benchmarks: files, drivers and presentation.
