# Sugi: the log and metric pipeline, modelled and proved

Sugi collects system metrics and log lines, keeps recent metrics in a circular buffer, writes logs to SQLite
through an asynchronous writer, and streams both to browsers as Server-Sent Events. This project models that
pipeline in Dafny and proves what holds of it for every input, every interleaving and every run.

`dafny verify dfyconfig.toml` checks the whole project.

## How the model is organised

Concurrent parts come twice. A state machine over values (`LogPipeline`, `ServerShutdown`, `SSEHub`, `LogTailer`)
lists every atomic step of every goroutine, and the theorems quantify over all runs. A class (`AsyncLogWriter`,
`HubObject`, `Tailer`) updates its fields in place; each of its methods is shown to be exactly one action of the
machine, or a run of them. Beside the program's own fields a class has one for each thing that the program keeps
in the stack of a goroutine: which calls are past their check, where the worker, the pruner and `Close` stand, a
handler's place, and a logical clock. The other goroutines appear in a method as a schedule: a sequence of actions
of any kind that is carried out in the gaps where the program holds no lock.

- `LogEntries`, `LogPipeline`, `LogPipelineResults`, `AsyncLogWriter`: producers inside `Enqueue`, the batch worker,
  the pruner and `Close`. The gap between the closed check and the send is a step of its own.
- `ServerShutdown`: who may call `Enqueue` (startup loop, tailers, HTTP handlers) and the order of `Shutdown`.
- `StreamShutdown`: the server and the hub together, each stream a running HTTP handler.
- `SSEHub`, `SSEIndependence`, `SSEHubObject`, `SSEWire`: the hub, one client's view of it, its loops over the
  client map, and the bytes read back as sections 9.2.5 and 9.2.6 of the WHATWG HTML Living Standard say.
- `Sequences`, `Text`, `LastLines`, `LogTailer`, `LogTailerObject`, `Syslog`: the harvester.
- `LogStore`, `LikePattern`, `LogQuery`, `LogQueryResults`, `StoredLogs`: the log table, the SQL text with its
  arguments and an evaluator that reads the text back, and the pipeline and the table put together.
- `RingBuffer`: the circular array.
- `Rates`, `Names`, `CpuUsage`, `CpuCollector`, `NetCollector`, `DiskCollector`: the collectors' arithmetic over
  real numbers with counters of 64 bits, per-device lists, totals, and what reports add up to over a run.

Histories such as `accepted`, `ops`, `missed` or `lost` record what happened; no branch of a step depends on them.

## What the code does not do

For each of these there is a theorem with the exact condition under which the code does behave as expected, or,
where no condition helps, one that says what happens in all cases.

- `Enqueue` releases its lock before it sends. `Close` loses nothing, whatever happens afterwards, if and only if no
  call stands between its check and its send when the flag is set; otherwise an accepted entry can stay in the
  channel for ever although `Close` returned nil (`CloseLosesNothingIff`, `ExactLoss`).
- A repeated call of `Close` returns nil at once and tells nothing (`WhatNilMeans`, `SecondCloseDoesNotWait`).
- `harvester.Start` runs in its own goroutine, and `harvester.Stop` does not wait for it. The rest of `Shutdown` is
  safe if and only if `Start` has returned and no tailer runs (`CleanShutdownIff`).
- After the hub has stopped nobody receives on `unregister`: a streaming handler then never returns
  (`HandlersAfterStop`). `Shutdown` closes the hub before it shuts the HTTP server down, so once the hub has
  stopped that shutdown can return nil if and only if every stream handler had returned by then (`HttpNilIff`).
- `Close` gets the context that the HTTP shutdown may have used up, and the storage is closed all the same: what is
  still pending then may never be committed (`TimeoutLosesPending`, `StuckStreamLosesPending`).
- A line that reaches the file in two pieces with a read in between loses its first piece (`SplitAppendLosesText`);
  that is harmless, for all second pieces, if and only if the first is empty (`SplitHarmlessIff`).
- The filter's search is documented as a substring search; it is one exactly when the text has no `%` and no `_`
  (`SearchIsSubstringIff`).
- A limit above 1000 is silently taken as 100, so paging in larger steps skips rows (`PagesTileIff`).
- Cores are sorted by number with an unstable sort; their order depends on the order of a map unless no two labels
  have the same number (`CoreOrderIff`).
- A syslog tag with other brackets than those around the process id is read differently (`TagReadBack`).
- `WriteBatch` replaces a time of exactly 0 milliseconds, but the zero `time.Time` is not 0: it is stored as the
  year 1 unless the ingest handler has replaced it first (`DefaultsAgree`).
- Sector counts are multiplied by 512 on 64 bits: rates are right exactly below 2^55 sectors an interval
  (`GrownIsExactIff`).

## Model

| member | source | states |
|---|---|---|
| LogPipeline.InvStep | internal/storage/log_writer.go:77-199 | every atomic step of producers, worker, pruner and `Close` keeps conservation, the bounds, the order of the phases and the times of checks, sends and the last empty read |
| LogPipeline.InvRun | internal/storage/log_writer.go:77-199 | the same over every interleaving of any length |
| LogPipelineResults.Conservation | internal/storage/log_writer.go:77-149 | accepted sends in send order are exactly the batches handed to the storage, then the current batch, then the channel; commits are first-in first-out without duplicates; batches have 1..BatchSize entries and at most BufferSize + BatchSize are pending |
| LogPipelineResults.UncommittedWasFailed | internal/storage/log_writer.go:103-111 | an entry handed over and not committed lies in a batch whose insert failed |
| LogPipelineResults.ExactLoss | internal/storage/log_writer.go:77-92 | once the worker has exited, an accepted entry was written if and only if it was sent before the worker's empty read, and is in the channel if and only if it was sent after; those left passed the closed check before the flag was set |
| LogPipelineResults.CloseLosesNothingIff | internal/storage/log_writer.go:77-92 | from every reachable state in which `Close` is called: no continuation strands an entry, and a nil from `Close` means all accepted entries were written, if and only if no call of `Enqueue` is between its check and its send when the flag is set |
| LogPipelineResults.WorkersFinish | internal/storage/log_writer.go:129-172 | once `done` is closed, worker and pruner can reach their exits without anybody else, leaving the channel empty |
| LogPipelineResults.StrandedForever | internal/storage/log_writer.go:142-144 | an entry left in the channel at the worker's exit is never handed to the storage |
| LogPipelineResults.WrittenFrozen | internal/storage/log_writer.go:142-144 | after the worker's exit nothing more is ever written |
| LogPipelineResults.WhatNilMeans | internal/storage/log_writer.go:175-199 | over every run, a nil from the call that set the flag means both workers are gone and the batch is empty; a repeated call can return in every state with the flag set and changes nothing |
| LogPipelineResults.SecondCloseDoesNotWait | internal/storage/log_writer.go:176-180 | from every reachable state before `Close`, a second call can return nil with channel, batch and worker as they were |
| LogPipelineResults.DrainStep | internal/storage/log_writer.go:129-146 | a measure over calls past the check, channel entries and the worker's place goes down with every worker step and every send, and never up |
| LogPipelineResults.DrainTerminates | internal/storage/log_writer.go:129-146 | once the worker drains, it exits after at most that many steps of its own and of sends, however the rest interleaves, and it is never blocked before |
| LogPipelineResults.TickFlushes | internal/storage/log_writer.go:103-127 | from every state with a batch that is not empty the ticker writes exactly that batch, empties it, and the worker is back in its select |
| LogPipelineResults.WriteBeginsIff | internal/storage/log_writer.go:121-144 | a write begins exactly when the ticker or the end of the drain finds entries in the batch, or a receive brings it to BatchSize |
| LogPipelineResults.WorkerCatchesUp | internal/storage/log_writer.go:113-127 | from every reachable state before `done` is closed, receives, ticks and writes alone lead to a state in which everything accepted has been handed over |
| LogPipelineResults.TickPrunes | internal/storage/log_writer.go:160-166 | a prune started by the ticker reaches the storage with its threshold |
| AsyncLogWriting.Normalized | internal/storage/log_writer.go:44-50 | non-positive sizes become 5000 and 200, positive ones are kept, so both are at least 1 |
| AsyncLogWriting.AsyncLogWriter.constructor | internal/storage/log_writer.go:44-73 | a new writer is the machine's initial state with the normalised sizes |
| AsyncLogWriting.AsyncLogWriter.PassClosedCheck | internal/storage/log_writer.go:78-83 | the locked first half of `Enqueue` is exactly the check action |
| AsyncLogWriting.AsyncLogWriter.TrySend | internal/storage/log_writer.go:85-91 | the send succeeds if and only if the buffer has room, and is exactly the offer action |
| AsyncLogWriting.AsyncLogWriter.ReceiveIntoBatch | internal/storage/log_writer.go:133-141 | a receive moves the oldest entry to the batch and starts a flush exactly at BatchSize |
| AsyncLogWriting.AsyncLogWriter.FlushOnTick | internal/storage/log_writer.go:126-127 | the tick starts a write if and only if the batch is not empty |
| AsyncLogWriting.AsyncLogWriter.FinishFlush | internal/storage/log_writer.go:103-111 | the batch is emptied and recorded as handed over whether or not the insert failed |
| AsyncLogWriting.AsyncLogWriter.StepPruner | internal/storage/log_writer.go:152-172 | the pruner's three steps |
| AsyncLogWriting.AsyncLogWriter.StepClose | internal/storage/log_writer.go:175-199 | the flag, the closing of `done`, the wait and its two outcomes, and a repeated call |
| AsyncLogWriting.AsyncLogWriter.Enqueue | internal/storage/log_writer.go:77-92 | whatever others do in the gap, the caller's own sends grow by its entry exactly when true is returned, and never when the writer was closed before the call |
| AsyncLogWriting.AsyncLogWriter.HandleIngestLogs | internal/api/handler.go:124-162 | under any interleaving accepted plus dropped is the number of entries, accepted is the number of its own sends, what is broadcast is what was sent, after defaulting, and the status is 429 exactly when all of a non-empty list were dropped |
| AsyncLogWriting.AsyncLogWriter.Drain | internal/storage/log_writer.go:129-146 | the drain loop, with any steps of producers, pruner and `Close` between its own, ends; every entry accepted before it began has been handed over, in order and before any later one; what is left was sent after the empty read, and nothing is left if no call was past its check |
| ServerShutdown.InvStep | internal/server/server.go:292-321 | every step of the server keeps the writer's invariant, the agreement between the phases of `Shutdown` and the state of `Close`, who may still enqueue, and that nothing is left and nothing touched once the storage is closed |
| ServerShutdown.CleanShutdown | internal/server/server.go:292-321 | when no tailer ran and none could start as `Close` set its flag, and HTTP shutdown and `Close` returned nil, every accepted entry was handed to the storage before it is closed, both workers are gone, and no call reaches the storage afterwards |
| ServerShutdown.CleanShutdownIff | internal/server/server.go:299-317 | from every reachable state after `harvester.Stop`: every continuation that gets through leaves no accepted entry behind if and only if `harvester.Start` has returned and no tailer runs |
| ServerShutdown.HandlersLeave | internal/server/server.go:304-307 | the handlers can always finish and return, without changing who else is past the check |
| ServerShutdown.CommittedFrozen | internal/server/server.go:314-317 | nothing is committed once the storage is closed |
| ServerShutdown.TimeoutLosesPending | internal/server/server.go:305-315 | from every state after `harvester.Stop` there is a shutdown out of time in which nothing still pending is ever committed |
| StreamShutdown.InvStep | internal/server/server.go:292-321 | every step of server and hub keeps the server's invariant, and that a connection whose handler has not returned is served by a running HTTP handler |
| StreamShutdown.HttpNilIff | internal/server/server.go:296-307 | when the hub has stopped, the HTTP shutdown can return nil if and only if every stream handler has returned |
| StreamShutdown.StuckStreamLosesPending | internal/server/server.go:296-317 | with a stream handler still there no continuation is a clean shutdown, and in some nothing pending is ever committed |
| StoredLogs.DefaultsAgree | internal/api/handler.go:129-137 | the ingest handler's defaults change nothing of what is stored except the zero time, which the store itself would keep as the year 1 |
| StoredLogs.TableIsExpected | internal/storage/sqlite.go:91-250 | for every sequence of the pipeline's storage calls, prunes and failures included, the rows are those the store's own history leads one to expect |
| StoredLogs.RowsAreStoredSends | internal/storage/sqlite.go:91-250 | they are, in order, the records of the written sends less the batches whose insert failed and less what a later successful prune cut |
| StoredLogs.TableOfRun | internal/storage/log_writer.go:94-172 | at every moment of every run of the pipeline the table is that, and what was written is a prefix of what was accepted |
| StoredLogs.AcceptedEntriesAreRows | internal/server/server.go:292-321 | after a clean shutdown there is one row for each accepted entry, in send order, less the failed batches and what a later prune cut, and nothing else |
| StoredLogs.AcceptedIsFound | internal/storage/sqlite.go:153-235 | from `Enqueue` to a query: after a clean shutdown an accepted entry that was stored has a row, and for every filter and page size up to 1000 paging shows that row if and only if the filter matches |
| SSEHub.InvStep | internal/api/sse.go:38-184 | every step of publishers, hub and handlers keeps the hub's invariant |
| SSEHub.ChannelSafety | internal/api/sse.go:38-89 | over every run no channel is closed twice or sent to after its close, registered clients have open channels, and after the stop no client is left and every registered channel is closed |
| SSEHub.DeliveryIsExact | internal/api/sse.go:57-77 | what entered a client's channel is what was dispatched between registration and removal, in order, less what it missed; messages are dispatched in publication order |
| SSEHub.DispatchFills | internal/api/sse.go:57-77 | a dispatch or heartbeat adds its message to the channel of every registered client with fewer than 32 waiting, and to no other |
| SSEHub.MissedIff | internal/api/sse.go:59-75 | over every run, a client registered at a dispatch misses that message if and only if its channel held 32 at that moment |
| SSEHub.NoGapIff | internal/api/sse.go:59-75 | a client receives everything dispatched while it was registered if and only if no dispatch found its 32 slots taken |
| SSEHub.VisitDelivers | internal/api/sse.go:38-66 | from every state with a running hub and nothing queued, a new client can register and is delivered the next message published |
| SSEHub.PublishIff | internal/api/sse.go:100-105 | a frame is queued if and only if fewer than 256 wait |
| SSEHub.TakeIs | internal/api/sse.go:173-181 | the handler writes the oldest message of its channel, and leaves its loop exactly when the write fails |
| SSEHub.DepartureDrops | internal/api/sse.go:49-55 | a client that goes away is dropped: its handler returns and its channel is closed |
| SSEHub.StopCloses | internal/api/sse.go:79-86 | the stop closes every client's channel, keeping what is in it; a client that has drained its own leaves its loop |
| SSEHub.HandlersAfterStop | internal/api/sse.go:152-154 | once the hub has stopped, a handler returns in no continuation unless it had returned already |
| SSEIndependence.ClientIndependence | internal/api/sse.go:42-88 | leaving all steps of other clients out of a run gives a valid run that ends with the same view of this client |
| SSEIndependence.DeliveredAsIfAlone | internal/api/sse.go:150-183 | from the start, a client's channel and everything written to it are the same as if nobody else had connected |
| SSEHubObject.HubObject.ClientCount | internal/api/sse.go:123-127 | the number of connections that were registered and not dropped since |
| SSEHubObject.HubObject.OnUnregister | internal/api/sse.go:49-55 | the unregister arm closes the channel only of a client still registered |
| SSEHubObject.HubObject.OfferToAll | internal/api/sse.go:59-65 | the loop over the clients, in any order of the map, adds the message to every channel with fewer than 32 waiting and leaves the full ones |
| SSEHubObject.HubObject.OnBroadcast | internal/api/sse.go:57-66 | the broadcast arm fans the oldest queued message out to all clients at once |
| SSEHubObject.HubObject.OnHeartbeat | internal/api/sse.go:68-77 | the heartbeat arm fans a comment out |
| SSEHubObject.HubObject.CloseAll | internal/api/sse.go:81-84 | in any order of the map every client is removed and its channel closed once |
| SSEHubObject.HubObject.OnStop | internal/api/sse.go:79-86 | the stop arm is the stop action |
| SSEHubObject.HubObject.Follow | internal/api/sse.go:38-184 | the object carries out any schedule of publishers, arms and handler steps as a run of the machine, and all of it when it is possible |
| SSEHubObject.RunHub | internal/api/sse.go:38-184 | after any run of a new hub its own fields show no panic, open channels for registered clients only, none open after the stop, exact delivery to every client, and delivery without a gap exactly to those whose 32 slots no dispatch found taken |
| SSEHubObject.RunAlone | internal/api/sse.go:42-88 | of two hubs, one with only what concerns one connection, both end with the same channel and response for it |
| SSEWire.ResponseRead | internal/api/sse.go:157-181 | for all payloads without line breaks, parsing the response yields the published (event, data) pairs in order and nothing for greeting and keep-alives |
| SSEWire.BrowserReads | internal/api/sse.go:150-181 | hub and wire together: in every run a browser reads the snapshot sent on connecting and then the events of the first messages that entered its channel since its registration, which are the first dispatched when no dispatch found 32 waiting |
| LastLines.ReadLastLines | internal/collector/log_harvester.go:328-360 | returns the last n lines shown by the 64 KiB window, none for n <= 0 or an empty file |
| LastLines.SplitConcat | internal/collector/log_harvester.go:351-351 | splitting a concatenation glues the pieces at the seam and keeps the others |
| LastLines.WindowRead | internal/collector/log_harvester.go:338-359 | for every non-empty file and n > 0 the window read is exactly the file's last min(n, lines) lines if and only if the file fits, or the window has more than n lines, or it has n and starts a line; in every case only the first returned line can be cut short |
| LogTailer.InvStep | internal/collector/log_harvester.go:160-219 | every loop turn, append, truncation and read error keeps offset, position, consumed lines and emissions in step, and the rate bound |
| LogTailer.TailExactUnlessLost | internal/collector/log_harvester.go:160-219 | over every run since the last seek without a cut, the complete lines taken make up the stretch read if and only if no part of a line was thrown away, which is so if and only if `offset` equals the read position, and then the emitted lines are exactly those of the stretch; at most MaxRate lines are taken between two processed ticks |
| LogTailer.TailIsExact | internal/collector/log_harvester.go:149-219 | when the file only grows by whole lines, the emitted lines are, in order and once each, the non-empty trimmed lines cut at 4096, and `offset` is the start plus what was consumed and within the file |
| LogTailer.CutRestarts | internal/collector/log_harvester.go:179-188 | a turn that finds the file shorter than `offset` sets offset and position to 0 and passes on nothing |
| LogTailer.RestartIsExact | internal/collector/log_harvester.go:160-219 | from every reachable state with a cut file that ends with a whole line: if it then grows by whole lines, what is passed on since the next turn is exactly the lines of the new file from its first character |
| LogTailer.RestartReadsAll | internal/collector/log_harvester.go:160-219 | and turns alone can read it to its end, passing on every line of it |
| LogTailer.TurnTakesLine | internal/collector/log_harvester.go:166-218 | a turn after a tick, or with allowance left, takes the next complete line, whole |
| LogTailer.ReadsAll | internal/collector/log_harvester.go:160-219 | with a tick before each turn the loop reads all complete lines, whatever was left of the allowance |
| LogTailer.EmissionIs | internal/collector/log_harvester.go:209-218 | of a line is passed on what is left without its line break, as far as 4096 characters, if anything is |
| LogTailer.SplitAppendLosesText | internal/collector/log_harvester.go:177-198 | for every file and every line appended in two pieces with a read in between, only the second piece is passed on |
| LogTailer.SplitHarmlessIff | internal/collector/log_harvester.go:177-218 | that changes nothing of what is passed on, for all second pieces, if and only if the first piece is empty |
| LogTailer.TrimBreaksIs | internal/collector/log_harvester.go:209-209 | trimming removes exactly the trailing run of CR and LF |
| LogTailerObject.Tailer.ReadString | internal/collector/log_harvester.go:177-177 | the next line with its newline, or the rest together with the end of the file |
| LogTailerObject.Tailer.TakeLine | internal/collector/log_harvester.go:206-218 | a complete line advances `offset` and the rate count and is passed on trimmed, cut and only if not empty |
| LogTailerObject.Tailer.ReachEnd | internal/collector/log_harvester.go:178-198 | at the end of the file a shorter file restarts the reading; otherwise the partial line is dropped |
| LogTailerObject.Tailer.OneTurn | internal/collector/log_harvester.go:160-219 | one turn of the loop is the machine's iteration |
| LogTailerObject.History | internal/collector/log_harvester.go:137-147 | the non-blank ones among the last lines are passed on first |
| LogTailerObject.TailFile | internal/collector/log_harvester.go:126-220 | from start to stop under any orderly schedule: first the non-blank last lines, then exactly the lines appended and read since |
| LogTailerObject.NonBlankAre | internal/collector/log_harvester.go:139-140 | the lines kept are, in their order, exactly those with a character that is no white space |
| Text.FieldsOfJoin | internal/collector/log_harvester.go:302-302 | splitting a join of words at white space gives the words back |
| Text.FieldsKeepText | internal/collector/log_harvester.go:241-241 | for every text, splitting at white space loses nothing but the white space |
| Text.SplitJoins | internal/collector/log_harvester.go:351-351 | joining the pieces of a split with newlines gives the text back |
| Text.TrimmedCore | internal/storage/sqlite.go:130-135 | trimming leaves exactly what stands between blank ends |
| Text.UpperEqualIff | internal/storage/sqlite.go:130-130 | two texts have the same upper case if and only if they agree character by character up to the case of letters |
| Syslog.ParseSyslogLine | internal/collector/log_harvester.go:223-325 | the step-by-step parser computes the meaning defined on the list of tokens, level included |
| Syslog.LevelIff | internal/collector/log_harvester.go:306-322 | a message is an error exactly when one of the words for it occurs in it in any case, a warning when one of its words does and none for an error, and so on |
| Syslog.TagReadBack | internal/collector/log_harvester.go:285-296 | a printed tag gives service and process id back if and only if its brackets are unambiguous |
| Syslog.PrintParse | internal/collector/log_harvester.go:223-304 | printing a stamp, host, tag and words and parsing the line gives back time, host and message, and service and process id if and only if the brackets are unambiguous |
| Syslog.MessageIsSuffix | internal/collector/log_harvester.go:241-303 | for every line the words of the message are those of the line from some point on: all of them when no time is recognised, otherwise those after time, host and tag |
| Syslog.ShortLine | internal/collector/log_harvester.go:241-244 | a line of fewer than three words is the message itself, at level INFO, of service syslog, with the current time and its source |
| Syslog.TimelessLine | internal/collector/log_harvester.go:246-275 | so is a longer line without a recognised time, but for the level of its words |
| Syslog.StampedLine | internal/collector/log_harvester.go:248-304 | an ISO time is tried first, then a BSD time; the source is always kept |
| LogStore.SQLiteStorage.WriteBatch | internal/storage/sqlite.go:91-150 | all normalised records are added with fresh ids or, on any error, none; true exactly when nothing failed |
| LogStore.BlanksStored | internal/storage/sqlite.go:130-138 | a blank level is stored as INFO and a blank service as default; message and attributes are kept |
| LogStore.SQLiteStorage.PruneOldLogs | internal/storage/sqlite.go:239-250 | removes exactly the rows below the threshold and reports how many |
| LogStore.SQLiteStorage.CountLogs | internal/storage/sqlite.go:253-263 | over the storage's history, the count and the sum of what the prunes reported make up what was committed |
| LogStore.TableIsCommittedMinusPruned | internal/storage/sqlite.go:91-250 | over every sequence of batches and prunes, failed ones included, the table is the committed rows less those a later prune cut, in order of insertion |
| LogStore.CountsBalance | internal/storage/sqlite.go:239-263 | rows in the table plus all reported prunes equal the rows inserted |
| LogStore.IdsStayOrdered | internal/storage/sqlite.go:107-143 | ids grow in order of insertion, whatever is pruned |
| LikePattern.SearchIsSubstringIff | internal/storage/sqlite.go:178-181 | the search finds exactly the messages that contain the text, for all messages, if and only if the text has no wildcard |
| LogQuery.TextRead | internal/storage/sqlite.go:183-199 | reading the SQL text back gives exactly the conditions, order and paging it was built from |
| LogQuery.CondsMeanMatches | internal/storage/sqlite.go:162-181 | for every filter the conditions with their arguments hold of exactly the records that match the set fields |
| LogQuery.CompilationKeepsMeaning | internal/storage/sqlite.go:153-199 | for every filter and table, evaluating text and arguments equals filtering, sorting newest first, dropping the offset and taking the normalised limit |
| LogQuery.PlaceholdersAlign | internal/storage/sqlite.go:157-199 | there are as many placeholders as arguments |
| LogQuery.BuildQuery | internal/storage/sqlite.go:157-199 | the text and arguments built by appends evaluate to the direct answer on every table |
| LogQueryResults.SortSorts | internal/storage/sqlite.go:187-187 | the order by time is a newest-first permutation of the rows |
| LogQueryResults.SortedUnique | internal/storage/sqlite.go:187-187 | with a fixed order of ties there is only one such permutation |
| LogQueryResults.AnswerIsDetermined | internal/storage/sqlite.go:183-199 | the answer is the stretch of the one newest-first sequence of matching rows that begins at the positive offset and has the limit's length, which is 100 unless it is from 1 to 1000 |
| LogQueryResults.QueryLogs | internal/storage/sqlite.go:153-235 | from the filter to the rows: as many as match less the positive offset, but at most 100 unless the filter sets a limit from 1 to 1000; they match, times never increase, and they are that stretch |
| LogQueryResults.PagesTileIff | internal/storage/sqlite.go:189-199 | pages at offsets 0, L, 2L and so on tile the result for every filter, table and number of pages if and only if L is at most 1000 |
| LogQueryResults.LargeStepsSkip | internal/storage/sqlite.go:189-192 | with a larger limit two pages of a table of 101 rows show only 100 |
| LogQueryResults.FoundIff | internal/storage/sqlite.go:153-263 | over every run of the store, for every filter and page size up to 1000, paging through the answer shows exactly the rows of the table that match |
| LogQueryResults.WrittenIsFound | internal/storage/sqlite.go:130-138 | over every run of the store, a row written for an entry is on some page of the query by level exactly when the filter's upper case is the stored level, and by service exactly when the filter is the stored service; the trimmed values find it |
| LogQueryResults.AnyCaseIsFound | internal/storage/sqlite.go:130-172 | a level written in any case and with any padding is found by every filter that agrees with it up to the case of letters, and by no other |
| LogQueryResults.WrittenIsFoundByText | internal/storage/sqlite.go:117-140 | likewise by exactly the wildcard-free texts that occur in its message, and by exactly the time ranges that hold its own time, or the time of insertion when its time is 0 |
| RingBuffer.RingBuffer.constructor | internal/storage/ringbuffer.go:23-33 | an empty buffer of the capacity asked for, or of 3600 when that is not positive |
| RingBuffer.RingBuffer.Push | internal/storage/ringbuffer.go:37-46 | appends to the pushes the array stands for, keeping each cell's place, and that head equals size while not full |
| RingBuffer.RingBuffer.Clear | internal/storage/ringbuffer.go:127-133 | starts the pushes over |
| RingBuffer.RingBuffer.Size | internal/storage/ringbuffer.go:115-119 | the smaller of pushes and capacity |
| RingBuffer.RingBuffer.GetLatest | internal/storage/ringbuffer.go:49-59 | the last push, if there is any |
| RingBuffer.RingBuffer.GetAll | internal/storage/ringbuffer.go:62-82 | a fresh array of the last pushes up to the capacity, oldest first |
| RingBuffer.RingBuffer.GetLastN | internal/storage/ringbuffer.go:85-112 | its suffix of length min(n, size), on the contiguous and the wrapped path |
| RingBuffer.RingBuffer.NewestWrapped | internal/storage/ringbuffer.go:104-109 | the two stretches around the end of the array, put together, are the newest pushes |
| Rates.RoundIdentity | internal/collector/cpu.go:241-244 | rounding to two decimals changes nothing exactly on whole hundredths |
| Rates.RateTimesInterval | internal/collector/net.go:101-117 | one rate times its interval is the growth of the counter within 0.005 of the interval |
| Rates.Telescope | internal/collector/net.go:146-197 | over every run with a baseline the sum of rate times interval is the growth within 0.005 of the time, failed calls in between changing nothing |
| Rates.TelescopeFromStart | internal/collector/net.go:163-185 | the same from an empty collector, whose first reading reports nothing |
| Rates.DeviceTelescope | internal/collector/net.go:146-197 | the same for one device present in every successful sample |
| Rates.TotalIsRounded | internal/collector/net.go:125-126 | the final rounding of a total of rounded rates is the identity |
| Rates.TotalSnoc | internal/collector/net.go:119-123 | a total grows by the rate of an entry that counts, and not by one that does not |
| Rates.MembersAre | internal/collector/net.go:119-123 | the members of a total are the entries that count |
| Rates.TotalError | internal/collector/net.go:120-123 | a total is off the sum of exact rates by at most 0.005 for each member |
| Names.SortedKeys | internal/collector/net.go:93-97 | the keys in ascending order, each once, whatever order the map yields them in |
| Names.ListsUnique | internal/collector/net.go:93-97 | there is only one such list |
| Names.LessIff | internal/collector/net.go:97-97 | the order is the dictionary's: at the first difference the smaller character, or the end, comes first |
| NetCollector.CalculateNetStats | internal/collector/net.go:81-128 | every interface once in ascending order with its counters and rates, and totals that are the sums of the rounded rates of all but `lo` |
| NetCollector.StatsUnique | internal/collector/net.go:93-127 | the result does not depend on the order of the map |
| NetCollector.TotalsError | internal/collector/net.go:119-126 | each total is within 0.005 for each interface counted of the sum of unrounded rates |
| NetCollector.ReportedRate | internal/collector/net.go:100-117 | the entry of an interface in both snapshots reports the rate that telescopes |
| NetCollector.FieldsReported | internal/collector/net.go:100-117 | field by field, each rate is within 0.005 of its own counter's growth per second, or 0 where that counter went back or is new |
| NetCollector.NetCollector.Collect | internal/collector/net.go:146-197 | a failure leaves the baseline alone, the first reading sets it and reports no rates, later ones are measured against it |
| NetCollector.AddUpReports | internal/collector/net.go:146-197 | what a reader adds up from the reports of one interface over a run of `Collect` calls is last counter minus first, within 0.005 for each second |
| DiskCollector.AcceptedNames | internal/collector/disk.go:167-188 | a device counts exactly when it is an nvme or mmcblk name without a `p`, or sd, vd, hd or xvd and one lower-case letter |
| DiskCollector.PartitionsAreNotPrimary | internal/collector/disk.go:167-188 | for all accepted disks and partition numbers, the partition is accepted too exactly when the disk is an nvme or mmcblk name that does not end in a digit |
| DiskCollector.GrownIsExactIff | internal/collector/disk.go:127-143 | the 64-bit product equals the bytes moved if and only if fewer than 2^55 sectors were counted; requests are always exact |
| DiskCollector.CalculateDiskStats | internal/collector/disk.go:97-164 | every device once in ascending order, and four totals that are the sums of the rounded rates of whole disks |
| DiskCollector.StatsUnique | internal/collector/disk.go:109-113 | the result does not depend on the order of the map |
| DiskCollector.TotalsError | internal/collector/disk.go:149-161 | each total is within 0.005 for each whole disk of the sum of unrounded rates |
| DiskCollector.ReportedRate | internal/collector/disk.go:126-144 | below 2^55 sectors a device in both snapshots reports the rate that telescopes |
| DiskCollector.FieldsReported | internal/collector/disk.go:126-144 | field by field, each rate is within 0.005 of its own counter's growth per second, sectors as 512 bytes on 64 bits, or 0 where that counter went back or is new |
| DiskCollector.DiskCollector.Collect | internal/collector/disk.go:191-239 | a failure leaves the baseline alone, the first reading sets it and reports no rates, later ones are measured against it |
| DiskCollector.AddUpReports | internal/collector/disk.go:191-239 | what a reader adds up from the reports of one device over a run of `Collect` calls is the bytes or requests in between, within 0.005 for each second |
| CpuUsage.PercentagesInRange | internal/collector/cpu.go:115-148 | for all 64-bit tick pairs, wrapped ones included, every percentage is in [0, 100] |
| CpuUsage.Deltas | internal/model/metrics.go:21-33 | without wrap-around the differences of the three sums are the plain ones, and idle and non-idle time make up the total |
| CpuUsage.SharesAreClose | internal/collector/cpu.go:128-145 | without wrap-around each percentage is its own counter's share of the elapsed ticks within 0.005 |
| CpuUsage.PartsWithinTotal | internal/collector/cpu.go:128-145 | for monotone counters without overflow, user + system + steal is at most total usage + 0.02, and total usage + iowait at most 100.01 |
| CpuUsage.IdleRegressionReadsZero | internal/collector/cpu.go:128-132 | when idle goes back while the total grows, the wrapped difference makes the usage exactly 0 |
| CpuCollector.KernelNamesDiffer | internal/collector/cpu.go:103-112 | core names as the kernel writes them have different numbers |
| CpuCollector.CoresInOrder | internal/collector/cpu.go:103-112 | such names come with fewer digits first, and among equally many with the smaller first different digit first |
| CpuCollector.CoresUnique | internal/collector/cpu.go:169-179 | with different numbers the order of the cores is fixed, whatever order the map yields |
| CpuCollector.CoreOrderIff | internal/collector/cpu.go:169-179 | the order of the cores is independent of the order of the map if and only if no two labels have the same number |
| CpuCollector.SortedCores | internal/collector/cpu.go:169-179 | every core once, in the order of the numbers, without the aggregate |
| CpuCollector.CalculateCPUUsage | internal/collector/cpu.go:151-190 | the aggregate when both readings have it, and the delta of every core in both, in order |
| CpuCollector.CoresListed | internal/collector/cpu.go:169-187 | a report has one entry for each label in both readings except the aggregate, in the order of the numbers |
| CpuCollector.CoresReported | internal/collector/cpu.go:181-187 | each entry has, within 0.005, the shares of that core's own counters from the earlier to the later reading, and zeros when no tick went by |
| CpuCollector.AggregateReported | internal/collector/cpu.go:158-167 | the totals are, within 0.005, the aggregate's own shares |
| CpuCollector.UsagesInRange | internal/collector/cpu.go:181-187 | every percentage of every core is in [0, 100] |
| CpuCollector.StatsUnique | internal/collector/cpu.go:151-190 | with different numbers the result does not depend on the order of the map |
| CpuCollector.CPUCollector.Collect | internal/collector/cpu.go:193-239 | a failure leaves the baseline alone, the first reading lists idle cores, later ones are measured against it |

## Left out

- The scheduler and the clock: tickers, timeouts and the order of goroutines are free choices of a run; nothing is said about how soon something happens, and termination is proved only where a measure bounds it.
- `internal/server/server.go` is a state machine on values, not a class: what `Start`, `Shutdown` and the harvester share is only which goroutines may still enqueue and which step of `Shutdown` has returned. The four startup entries are any entries.
- The log channel is never closed by the program, so the branches for a closed log channel are not modelled.
- A second call of `SSEHub.Close` or `LogHarvester.Stop` would close a closed channel; the model has one call of each.
- The hub's locks: an arm of `run` is one step, so a `ClientCount` in the middle of a fan-out is not visible.
- JSON marshalling: frames and attributes carry their JSON text, and attributes stored as JSON are taken to be read back unchanged.
- `time.Parse`: both recognised stamp formats, with the year correction, are oracles; RFC 3339 with and without fractions is one of them.
- The level that the ingest handler infers from raw text lines.
- UTF-8: a character stands for a byte, so a cut at 4096 may fall inside an encoded character as it does in the program; upper case and white space are those of ASCII.
- `readLastLines` when the file cannot be examined or read, and `tailFile` when it cannot be opened: no lines. The stretch appended between the initial read and the seek to the end is skipped by the program; the model starts at the seek.
- A file that is cut and grows past the old offset before the next look: it is covered by the general tailer theorem only up to the cut.
- `Start` choosing which files to tail, and the readability test.
- SQLite itself, WAL mode, backup and restore: a batch is inserted as a whole or not at all; begin, insert and commit errors are inputs. Rows of the same millisecond come in the order of their ids, a choice SQL leaves open.
- `QueryLogs` after the query: scanning rows back into entries.
- The time a batch entry gets when it has none is an input for each entry.
- IEEE floating point: rates and percentages are real numbers, so a result may differ from the program's in the last bits of a double before rounding.
- Parsing /proc files: snapshots are maps with any 64-bit counters; `mem.go` is not modelled.
- HTTP routing, headers, request size limits and parsing of request bodies; `internal/ui`, command-line flags and `parseRetention`.
