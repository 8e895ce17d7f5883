# A model of the mcub bridge, verified in Dafny

mcub connects a small display on a serial line to a music player, a spectrum analyser and system
statistics. This project models the parts in which threads, byte streams and long runs matter, and
proves what holds of every run. `dafny verify dfyconfig.toml` checks it.

## What is modelled

**The serial queue** (`queue_order`, `binary_heap`, `queue_log`, `serial_queue`, `queue_protocol`,
`queue_theorems`, `queue_calls`, `late_sends`, `write_outcomes`). Any number of senders and stoppers
and one worker share a heap ordered by priority and sequence number. Each lock region is one step of
a transition system and each `write(2)` is a step of its own outside the locks, so the gap between a
check and its act is part of the model. `BinaryHeap` is the heap over a vector, proved to pop what a
sorted sequence pops; `SerialQueue` carries the lock regions out over it. The theorems hold of every
interleaving: conservation, order of the worker's writes, bounded overtaking and service in time,
what the result of a send means, that sends return, three strikes and what they count, what happens
after the queue has closed, which sends are still accepted then, and that the join in `stop`
returns.

**The bytes on the line** (`framing`, `wire`, `spectrum_path`, `spectrum_sends`). Binary frames that
start with `0xCA` and newline-terminated JSON share one line. Decoding gives back exactly what was
written if and only if every write was whole, for any mix of queued and critical writes; up to the
first short write nothing is lost. `spectrum_path` puts the reader thread on top of the queue's
threads: it hands what its reads returned to one critical send at a time. Over every interleaving
the spectra the device decodes are then, in order, a subsequence of the frames the reads emitted,
each aligned in the analyser's output and whole, when there are 1 to 64 bars: exactly the frames of
those sends whose write took.

**Streams cut at random** (`cava_reader`, `line_reader`). The analyser's frames and the text lines
are rebuilt from arbitrary read chunks; the result does not depend on the cuts. Both copies of
`readline` are covered, with the exact condition under which a line survives, alone and in a row of
calls.

**Locks and threads** (`lock_order`, `lock_code`, `hybrid_threads`, `fair_shutdown`,
`fair_schedules`, `cleanup_joins`, `hybrid_main`). `lock_code` gives the nesting of guards of every
routine a bridge thread runs, as a function of the outcomes that decide which guards are taken. All
nest in increasing rank, joins counted as locks: stats or mpd, then the serial state, the worker
handle, the join of the queue worker, error_state, the queue state, the leaf locks, and the logger.
Hence from every thread a chain of waits leads to one that can step, no chain closes to a circle,
and every fair run of a cleanup that has raised the stop flag completes, with everything it joins
ended.

**The watcher** (`device_id`, `watcher_state`, `watcher_runs`, `watcher_serving`, `watcher`,
`backoff`). Identification of devices, starting and stopping of the bridge process, its two event
loops and the per-device cooldown. What the outside world answers (devices found, identification,
spawning, survival, deaths, time) is part of each event, and the theorems hold for all answers.

**The player client and bookkeeping** (`mpd_reply`, `mpd_songs`, `mpd_cache`, `log_rotation`,
`reconnection`). Reading replies, grouping a play list in one pass, songs from a hash map in an
arbitrary iteration order, the repeated stop command, the cached playing time, log rotation and the
spacing of reconnection attempts.

## Where an obvious claim is too strong

- For 65 to 127 bars the header and the length of the payload disagree; `HeaderMatchesPayload` is
  the exact condition and `OversizedHeaderSwallows` shows what is lost.
- `write(2)` results n >= 0 all count as success; `WholeWritesNeeded` says the device recovers the
  messages exactly when all were whole.
- A send that passed its running check before a stop can still be accepted after it, and its item is
  never popped (`LateAcceptance`). `LateSends` says which: exactly the threads that stood between
  the check and the queue at the stop, when they find room; a send that begins later returns false.
- `readline` loses what follows the newline in the same chunk. `SecondLineWhole` is the exact
  condition for the next line, `LinesInARow` that for any number of calls, and a line over the limit
  is returned in one corner case only (`LineReturned`).
- A device can be active with no bridge to serve it: after a failed re-identification or start, and
  when the restart of a served analyser fails. `UnservedExactly` is the exact condition for every
  event; `UnservedStays` and `StuckUntilEvent` say that no health check repairs this, except for an
  analyser, in either event loop.
- A song from a hash map depends on the iteration order exactly when it has an unreadable
  `duration` and a readable `Time`: `OrderIndependent`. `MapAgreesWithPairs` is the exact condition
  for it to equal the song from the pairs.
- The size the log counts is that of the current file exactly while there is a backup or no rotation
  has happened yet (`FileSink.WriteLine`). No backup need exist beforehand, and gaps between backups do no harm.
- The playing time is not fetched again while the number of songs stays the same, so it can be out
  of date: `Cache.CalculatePlaylistTime` gives the exact condition.
- The repository's `README.md:78` describes the queue as an `mpsc::channel`; the code is a mutex, a
  condition variable and a heap, and the model follows the code.

## Model

| member | source | states |
|---|---|---|
| `QueueOrder.CompareIsReversedKeyOrder` | src/core/serial_queue.rs:18-27 | the heap comparison is greater exactly for the item with the smaller (priority, sequence), and equal exactly when both keys agree, whatever the data |
| `QueueOrder.CompareIsTotalOnDistinct` | src/core/serial_queue.rs:11-33 | on items with distinct sequence numbers it is a strict total order |
| `BinaryHeaps.RootIsSortedHead` | src/core/serial_queue.rs:241 | the root of a heap is the head of the sorted sequence with the same items |
| `BinaryHeaps.PopRemovesHead` | src/core/serial_queue.rs:241 | taking the root off leaves the items of the sorted sequence without its head |
| `BinaryHeaps.BinaryHeap.Push` | src/core/serial_queue.rs:158-163 | a push on the heap is an insertion into the sorted sequence |
| `BinaryHeaps.BinaryHeap.Pop` | src/core/serial_queue.rs:241 | a pop of the heap returns and removes the head of the sorted sequence |
| `QueueLog.QueueInvariant` | src/core/serial_queue.rs:154-165 | at every point of a history the depth is within the limit, the queue is strictly sorted and its sequence numbers are distinct and at most the counter |
| `QueueLog.Conservation` | src/core/serial_queue.rs:154-174 | as multisets, accepted items are queued items plus popped items |
| `QueueLog.PopOrder` | src/core/serial_queue.rs:227-241 | of two pops the later one is of a later item or of one accepted later |
| `QueueLog.FirstInFirstOut` | src/core/serial_queue.rs:18-27 | within a priority, pops come in order of acceptance |
| `QueueLog.PopsIncrease` | src/core/serial_queue.rs:227-241 | no item is popped twice and sequence numbers increase within each priority |
| `QueueLog.StaysQueued` | src/core/serial_queue.rs:154-241 | an accepted item is queued at every moment until its pop |
| `QueueLog.Overtaking` | src/core/serial_queue.rs:154-241 | whatever is popped between an item's acceptance and its pop was waiting at the acceptance with no larger priority number, or came later with a strictly smaller one |
| `QueueLog.OvertakingBound` | src/core/serial_queue.rs:154-241 | at most max_queue_size - 1 of the items waiting at an acceptance overtake it |
| `QueueLog.PopsBounded` | src/core/serial_queue.rs:154-241 | as long as an accepted item has not been popped, the pops since its acceptance number at most max_queue_size - 1 plus the later arrivals with a smaller priority number |
| `SerialQueues.SerialQueue.constructor` | src/core/serial_queue.rs:76-119 | a started queue is empty, running and not disconnected |
| `SerialQueues.SerialQueue.Guard` | src/core/serial_queue.rs:252-257 | a writer goes on exactly while the queue runs and is not disconnected |
| `SerialQueues.SerialQueue.Enqueue` | src/core/serial_queue.rs:154-174 | the item is refused exactly when the queue is full, and otherwise inserted under the next sequence number |
| `SerialQueues.SerialQueue.NextForWorker` | src/core/serial_queue.rs:229-242 | the worker ends when the queue is closed, waits when it is empty and otherwise takes the least item |
| `SerialQueues.SerialQueue.AccountWrite` | src/core/serial_queue.rs:266-288 | failures are counted since the last success, and the third in a row is reported |
| `SerialQueues.SerialQueue.RequestStop` | src/core/serial_queue.rs:121-129 | a running queue is stopped and marked disconnected; a stopped one is left alone |
| `SerialQueues.KeepsSequences` | src/core/serial_queue.rs:158-163 | an acceptance keeps the sequence numbers distinct and at most the counter |
| `QueueProtocol.InvKept` | src/core/serial_queue.rs:121-290 | every region of every thread keeps the invariant of the thread system |
| `QueueProtocol.Reachable` | src/core/serial_queue.rs:104-290 | the invariant holds in every state of every interleaving |
| `QueueTheorems.AcceptedAccountedFor` | src/core/serial_queue.rs:141-249 | in every run, accepted items are the heap, the item the worker holds and the items the worker is done with |
| `QueueTheorems.WorkerWritesInOrder` | src/core/serial_queue.rs:224-249 | in every run the worker's writes are a prefix of the pops, each with its item's own data, none twice, increasing in sequence within each priority, and complete but for what it holds and what it gave up at the guard; nobody else writes for an item |
| `QueueTheorems.BoundedOvertaking` | src/core/serial_queue.rs:154-241 | the depth and overtaking bounds hold in every interleaving |
| `QueueTheorems.ServedInTime` | src/core/serial_queue.rs:154-249 | in every run, while the queue is open, an accepted item has been popped once the worker has looked max_queue_size times since, and one more time for each later arrival with a smaller priority number |
| `QueueTheorems.StrikesAnswered` | src/core/serial_queue.rs:251-280 | three failures in a row are followed by the disconnect flag or a thread about to set it |
| `QueueTheorems.ThreeStrikes` | src/core/serial_queue.rs:251-290 | while the queue runs, the flag is set only after three failures with no success between them in error-lock order, and three such failures set it up to threads on their way; what is counted there are the results of the writes, of each thread's own once each and in their order, up to one it still owes |
| `WriteOutcomes.EveryWriteAccounted` | src/core/serial_queue.rs:261-290 | in every run each thread brings in the results n >= 0 of its own writes to the error accounting, once each and in order, and owes at most the last |
| `WriteOutcomes.LatestResult` | src/core/serial_queue.rs:263-280 | a thread about to account for a write does so with the result of its latest one |
| `WriteOutcomes.OutcomesAreResults` | src/core/serial_queue.rs:261-290 | over all threads, as often as an outcome has been brought in or is owed, as often a write came out so |
| `QueueTheorems.AfterClose` | src/core/serial_queue.rs:121-140 | once disconnected or stopped, the queue stays closed, nothing more is popped, and only threads past the guard still write, each at most once |
| `QueueTheorems.LateAcceptance` | src/core/serial_queue.rs:141-174 | a run reaches a stopped queue that has accepted nothing and a sender standing at it, whose next step accepts its item and returns true; the item is then never popped, whatever follows |
| `LateSends.LateSends` | src/core/serial_queue.rs:121-174 | over every run from any stopped state, the threads still at the queue are those that stood there and have not stepped, the events since are the acceptances of those that stepped and found room, each once and with what it stood there with, and a send that begins later can only return false |
| `LateSends.LateAnswer` | src/core/serial_queue.rs:154-174 | each thread that still stands there is answered at its next step, with true and an acceptance exactly if there is room |
| `QueueTheorems.WorkerStepsBounded` | src/core/serial_queue.rs:224-249 | on a closed queue each step of the worker brings its end nearer |
| `QueueTheorems.StopReturns` | src/core/serial_queue.rs:121-139 | after a close the worker takes at most five more steps, can always take the next, and its end releases every stopper |
| `QueueTheorems.StopStops` | src/core/serial_queue.rs:121-139 | in every run that contains a stop, after its first step the queue runs no more, and when it has returned from the join the worker has ended |
| `QueueTheorems.OneStopJoins` | src/core/serial_queue.rs:121-139 | of any number of stops exactly one joins the worker, the one that stops the queue |
| `QueueCalls.SendResult` | src/core/serial_queue.rs:141-174 | in every run the accepted items are, in order, those of a sequence of distinct threads that have all returned true; a send with priority >= 0 has returned true if and only if its thread is one of them, the item there has its data and priority, it never writes, and it has returned false only if the queue no longer runs or was full since the send began; a critical send is none of them, writes its own data at most once, has returned true if and only if that write took, and on an open queue has not returned without a write |
| `QueueCalls.SendReturns` | src/core/serial_queue.rs:141-174 | every send takes at most five steps, and can always take its next one until it has returned |
| `Framing.DecodeEncoded` | src/core/serial_queue.rs:176-195 | a well-formed message in front of any bytes is decoded and leaves those bytes |
| `Framing.DecodeBefore` | src/core/serial_queue.rs:176-195 | well-formed messages are decoded whatever bytes follow, and those bytes are decoded as if they stood alone |
| `Framing.DecodeAll` | src/core/serial_queue.rs:176-195 | a sequence of well-formed messages is decoded whole |
| `Framing.DecodeCanonical` | src/core/serial_queue.rs:176-195 | whatever is decoded is well formed and encodes back to the bytes consumed |
| `Framing.RoundTrip` | src/core/serial_queue.rs:176-195 | decoding the encoding gives the messages back if and only if all are well formed |
| `Framing.EncodeInjective` | src/core/serial_queue.rs:176-195 | different sequences of messages have different images on the line |
| `Framing.ToldApart` | src/core/serial_queue.rs:176-195 | a message starts with 0xCA exactly if it is a frame, whose second byte is then the length of the rest; a line ends in its only newline |
| `Framing.WholeWritesNeeded` | src/core/serial_queue.rs:261-290 | the device recovers what was written if and only if every write was whole |
| `Framing.BinaryHeader` | src/core/cava_manager.rs:222-224 | the header has its top bit clear |
| `Framing.HeaderMatchesPayload` | src/modules/hybrid_bridge.rs:531-539 | the header is the length of the payload if and only if there are at most 64 bars or 64 modulo 128 |
| `Framing.OversizedHeaderSwallows` | src/modules/hybrid_bridge.rs:531-539 | with 65 to 127 bars a frame and a short line after it decode to nothing |
| `Wire.WritesHaveData` | src/core/serial_queue.rs:141-249 | a property of every buffer sent is a property of every buffer queued or written, in every run |
| `Wire.DeviceRecoversWrites` | src/core/serial_queue.rs:141-290 | in every run, for any mix of worker and critical writes, the device recovers the successful writes in write order if and only if each was whole |
| `Wire.DeviceRecoversUntilShort` | src/core/serial_queue.rs:141-290 | in every run, up to the first short write the device decodes exactly the messages of the successful writes, in write order; what it makes of the rest does not change them, and until something else is written there is nothing more |
| `Wire.DecodedSpectraAreAligned` | src/modules/hybrid_bridge.rs:505-545 | whatever is sent of what the reads returned, with 1 to 64 bars and whole writes every spectrum decoded in any run is an emitted frame, aligned in the analyser's output and whole, under a header equal to the bar count |
| `SpectrumPath.Reachable` | src/modules/hybrid_bridge.rs:505-564 | over every interleaving of the reader's turns with the queue's threads, the reader's calls carry emitted frames, one at a time and each newer than the last, and everything else is text |
| `SpectrumPath.SpectraUntilShort` | src/modules/hybrid_bridge.rs:505-564 | over every interleaving, with 1 to 64 bars, the spectra the device decodes up to the first short write, and until something is written after it, are in order a subsequence of the emitted frames, with strictly increasing indices |
| `SpectrumPath.SpectraInOrder` | src/modules/hybrid_bridge.rs:505-564 | over every interleaving, with 1 to 64 bars and whole writes, all the spectra the device decodes are in order a subsequence of the emitted frames, with strictly increasing indices |
| `SpectrumSends.EverySendMade` | src/modules/hybrid_bridge.rs:505-545 | over every interleaving, a frame that is handed out and not skipped is sent, one call each, and the frames of successful writes are those of the sends that took, in the order of the turns |
| `SpectrumSends.SpectraExactly` | src/modules/hybrid_bridge.rs:505-564 | with 1 to 64 bars and whole writes, the spectra the device decodes are exactly the frames of those sends whose write took, in order; a send has returned true if and only if its write took, and on an open queue has not returned without a write |
| `CavaReaders.FramesAccountedFor` | src/core/cava_manager.rs:314-326 | however the stream is cut, frames handed out have strictly increasing indices, and handed out plus passed over is bytes received / frame size |
| `CavaReaders.ChunkingIndependent` | src/core/cava_manager.rs:302-326 | two ways of cutting the same bytes leave the same unread tail, account for the same number of frames, and on a frame boundary hand out the same last frame |
| `CavaReaders.HandedOutIsEmitted` | src/core/cava_manager.rs:314-326 | whatever a read hands out is an emitted frame of the whole stream, however much is read afterwards |
| `CavaReaders.LastReadCompletes` | src/core/cava_manager.rs:302-326 | a read that ends on a frame boundary hands out the newest frame |
| `CavaReaders.WithinStream` | src/core/cava_manager.rs:314-324 | a complete frame lies within the bytes received |
| `CavaReaders.CavaReader.constructor` | src/core/cava_manager.rs:51-84 | a new reader stands at the start of a stream |
| `CavaReaders.CavaReader.Start` | src/core/cava_manager.rs:168-220 | a new analyser process begins a new stream with an empty buffer |
| `CavaReaders.CavaReader.ReadBinary` | src/core/cava_manager.rs:284-327 | between calls the buffer is the stream after its last complete frame, shorter than a frame; a call returns nothing if it completes no frame and otherwise the newest complete frame cut to max_values |
| `LineReaders.ReadLine` | src/core/serial_comm.rs:232-267 | both copies, with or without the last filter, stop when nothing more comes, at a newline or past the limit, and hand back all that was read without carriage returns past the limit, and otherwise the bytes before the newline or all there is, unless that is empty or not UTF-8; the buffer never exceeds 4352 bytes |
| `LineReaders.CollectLine` | src/core/device_identifier.rs:231-271 | the loop collects up to the first newline, the end of waiting or the limit, without carriage returns |
| `LineReaders.CollectsExactly` | src/core/serial_comm.rs:232-260 | the loop in closed form, for every cutting of the stream and every pause: where it stops and what it holds then |
| `LineReaders.LineReturned` | src/core/serial_comm.rs:232-260 | a line whose newline arrives in time is returned if and only if the buffer stays within 4096 bytes or the chunk that exceeds them ends just before the newline |
| `LineReaders.ChunkingIndependent` | src/core/serial_comm.rs:232-267 | within the limit the result is the bytes before the newline, however they were cut |
| `LineReaders.SecondLineWhole` | src/core/serial_comm.rs:238-258 | however the stream is cut, the second call returns the first line of the later chunks, and this is the stream's second line if and only if nothing followed the first newline in its chunk, or what did held a whole line that happens to be the same |
| `LineReaders.LinesInARow` | src/core/serial_comm.rs:232-267 | n calls return the first n lines of the stream if no line but the last is followed by anything in the chunk that ends it, and where no such chunk holds a second newline, only then |
| `LockOrder.CodeRuns` | src/modules/hybrid_bridge.rs:350-413 | code whose guards nest in increasing rank runs as a balanced sequence of acquisitions, each above all held |
| `LockOrder.LinkRises` | src/modules/hybrid_bridge.rs:350-413 | if a thread waits for one that is blocked, the rank waited for strictly rises |
| `LockOrder.ChainsEnd` | src/modules/hybrid_bridge.rs:350-413 | no chain of waits, whichever holders it follows, is longer than there are ranks, so none is a circle |
| `LockOrder.SomeoneRuns` | src/modules/hybrid_bridge.rs:263-309 | from any thread that has not ended a chain of waits leads to one that is not blocked |
| `LockCode.WriteAscends` | src/core/serial_queue.rs:251-290 | the guards of write_to_device nest in rank order |
| `LockCode.StatsAscends` | src/core/serial_queue.rs:197-215 | the guards of stats nest in rank order |
| `LockCode.CloseAscends` | src/core/serial_comm.rs:82-88 | close nests in rank order, the join of the worker and the dropped handle included |
| `LockCode.CleanupAscends` | src/modules/hybrid_bridge.rs:396-413 | cleanup nests in rank order |
| `LockCode.WriteDropsErrorState` | src/core/serial_queue.rs:263-280 | write_to_device takes no lock while it holds error_state |
| `LockCode.StatsNests` | src/core/serial_queue.rs:197-199 | stats takes the state lock while it holds error_state |
| `LockCode.CloseJoinsUnderSerial` | src/core/serial_comm.rs:82-88 | close joins the worker of a running queue while it holds the serial state |
| `LockCode.SendsOutsideSerial` | src/core/serial_comm.rs:90-106 | a send takes no lock while it holds the serial state |
| `LockCode.CleanupJoinsFree` | src/modules/hybrid_bridge.rs:396-413 | cleanup joins its threads with no lock held |
| `HybridThreads.TurnAscends` | src/modules/hybrid_bridge.rs:263-624 | whatever a thread of the bridge runs in a turn, with every early exit of its loop, nests in rank order above its own join |
| `HybridThreads.Reachable` | src/modules/hybrid_bridge.rs:150-309 | in every interleaving the locks held follow the ranks, a queue worker is joined only after its queue was told to stop, and cleaning implies the stop flag |
| `HybridThreads.DeadlockFree` | src/modules/hybrid_bridge.rs:263-413 | in every reachable state, from each thread that has not ended a chain of waits leads to one that can step, and no chain of waits is longer than ten threads |
| `HybridThreads.ShutdownStep` | src/core/signal_handler.rs:49-58 | while cleanup runs the flag stays raised, each step of the main thread or a loop lowers what is pending and no other step raises it |
| `HybridThreads.ShutdownBounded` | src/modules/hybrid_bridge.rs:396-413 | from cleanup on, in every interleaving, those threads take no more steps than are pending |
| `HybridThreads.ShutdownProgress` | src/modules/hybrid_bridge.rs:396-413 | while cleanup waits, some step is possible that brings the end nearer |
| `HybridThreads.ShutdownCompletes` | src/modules/hybrid_bridge.rs:263-309 | from every state in which cleanup runs, a run reaches the end of every thread it joins |
| `FairShutdown.ReachableExclusive` | src/modules/hybrid_bridge.rs:263-413 | in every reachable state no guard is held by two threads |
| `FairShutdown.FairRunsComplete` | src/modules/hybrid_bridge.rs:263-413 | every fair infinite run from a state in which cleanup runs, whatever the queue workers do meanwhile, reaches a moment at which the main thread and every worker loop have ended |
| `FairSchedules.FairScheduleExists` | src/modules/hybrid_bridge.rs:263-413 | from every state in which cleanup runs there is a fair schedule |
| `FairSchedules.WeakFairnessStarves` | src/core/serial_queue.rs:227-240 | with fairness only for threads that can step without interruption the shutdown need not complete: a reachable state and such a schedule under which neither a loop that waits for the state of an open queue nor the main thread that joins it ever moves |
| `HybridThreads.WithoutFlagNoEnd` | src/modules/hybrid_bridge.rs:263-280 | without the flag a worker loop other than the reader never ends, so a join on it would hang |
| `CleanupJoins.HandlesJoined` | src/modules/hybrid_bridge.rs:396-413 | in every run from a cleanup's start, when the main thread is over, each worker thread whose handle it was given has ended |
| `CleanupJoins.QueueJoined` | src/core/serial_comm.rs:82-88 | and a queue that still ran has been told to stop and its workers have ended |
| `HybridMains.AtOnce` | src/modules/hybrid_bridge.rs:183-260 | the threads started at once are those of the supported modes, the reader only if the analyser started, each once |
| `HybridMains.RetainRunning` | src/modules/hybrid_bridge.rs:265-274 | the handles kept are those of unfinished threads, and a death is reported exactly if one was finished |
| `HybridMains.HybridMain.constructor` | src/modules/hybrid_bridge.rs:210-235 | the analyser is deferred exactly when it is supported and its start failed |
| `HybridMains.HybridMain.TryDeferredStart` | src/modules/hybrid_bridge.rs:281-302 | a deferred analyser whose start works gets its one reader, and otherwise nothing changes |
| `HybridMains.HybridMain.Run` | src/modules/hybrid_bridge.rs:263-309 | over any run at most one reader is started, and one is if and only if some start worked while it was due; no pass is made in full over a finished thread, the deferred reader included; the loop ends only on the flag or a death, a death requests a stop, and cleanup is given every other thread |
| `Backoff.AttemptInWindow` | src/bin/watcher.rs:435-450 | in every run, any 31 visits of a device in a row include an attempt, and any 9 frames in a row do |
| `Backoff.ExactSkips` | src/modules/hybrid_bridge.rs:523-553 | after j straight failures exactly min(2^(j-1), 8) frames are skipped, after f >= 3 exactly min(3 * 2^(f-3), 30) visits, and the next turn is an attempt |
| `Backoff.FrameDoubling` | src/modules/hybrid_bridge.rs:548-553 | the saturating doubling of the frame skip is that closed form |
| `Backoff.VisitDoubling` | src/bin/watcher.rs:97-109 | the saturating doubling of the cooldown is that closed form |
| `Backoff.FrameSkip.Frame` | src/modules/hybrid_bridge.rs:523-553 | every frame is recorded as skipped, sent or failed, and the record obeys the skipping rule |
| `Backoff.Cooldowns.ShouldSkip` | src/bin/watcher.rs:87-95 | a visit is skipped exactly while its quota lasts |
| `Backoff.Cooldowns.RecordFailure` | src/bin/watcher.rs:97-109 | the failure is recorded for that device only and sets its quota |
| `Backoff.Cooldowns.RecordSuccess` | src/bin/watcher.rs:111-115 | the success is recorded for that device only and clears its quota |
| `Backoff.Cooldowns.Remove` | src/bin/watcher.rs:117-119 | the device's record is forgotten, the others' kept |
| `DeviceIds.Identify` | src/core/device_identifier.rs:100-160 | the flags set in the loop give the classification by listed modes, or by name when none is listed |
| `DeviceIds.ClassifiedByModes` | src/core/device_identifier.rs:135-142 | a device is accepted exactly when it has a mode, is a hybrid exactly when it has several, and has 1 to 127 bars if any |
| `DeviceIds.IdentifiedExactly` | src/core/device_identifier.rs:109-142 | in terms of the answer: a device has the modes it lists, or if it lists none those its name mentions in either case; it is accepted exactly with an id answer and a mode, is a hybrid if it has several, and keeps its format and its bars, brought into 1 to 127 |
| `WatcherRuns.AtMostOneChild` | src/bin/watcher.rs:184-231 | the invariant allows one live bridge process at most |
| `WatcherRuns.RunKeepsFrom` | src/bin/watcher.rs:323-461 | every run of events keeps the invariant |
| `WatcherRuns.EveryRun` | src/bin/watcher.rs:323-461 | in every run at most one bridge process lives, it is the one held, and it serves the active device with the identity that device was given; leaving the loop ends it |
| `WatcherRuns.RestartKeepsIdentity` | src/bin/watcher.rs:267-281 | the identity rebuilt for a restart of the analyser is the one first identified |
| `WatcherRuns.RemoveAllKeeps` | src/bin/watcher.rs:406-414 | after removals no removed device is active, and otherwise nothing changes |
| `WatcherRuns.ServedAfterHandling` | src/bin/watcher.rs:141-182 | after handling, the active device is unserved if and only if there was one before and handling failed, and it is then the same one |
| `WatcherRuns.ServedAfterDeath` | src/bin/watcher.rs:249-259 | after a bridge's death the device is unserved if and only if handling it again fails |
| `WatcherRuns.UnservedAfterCheck` | src/bin/watcher.rs:249-283 | a health check leaves the active device unserved if and only if handling it after a death fails, or the restart of an analyser fails to launch, or nothing is done and it was unserved before |
| `WatcherRuns.RestartCanUnserve` | src/bin/watcher.rs:262-282 | a live bridge of a served analyser is given up for a restart, and its device is unserved after it exactly if that fails |
| `WatcherRuns.UnservedExactly` | src/bin/watcher.rs:323-461 | for every event in every state the watcher can be in, the exact condition under which it leaves a device active with no bridge |
| `WatcherRuns.UnservedStays` | src/bin/watcher.rs:262-282 | no outcome lets a health check repair an unserved device if and only if it is not an analyser due for a restart; then it is served exactly if the start works |
| `WatcherRuns.StuckUntilEvent` | src/bin/watcher.rs:344-352 | an unserved device that is no analyser stays so through any number of checks in either loop |
| `WatcherRuns.UnservedIsReachable` | src/bin/watcher.rs:249-260 | a run that leaves a device unserved |
| `WatcherServing.IdentifiedByFirst` | src/bin/watcher.rs:151-157 | a device is identified if and only if one of three requests is answered by a device that can be classified, by the first such answer |
| `WatcherServing.HandledExactly` | src/bin/watcher.rs:141-182 | handling a device leaves exactly that device served, under the identity it gave and by a bridge started for it then, if it answers and the bridge is found, spawned and survives; otherwise no bridge lives and the active device is the one before |
| `WatcherServing.FirstServed` | src/bin/watcher.rs:400-403 | after a list of devices the first whose attempt works is the one served |
| `WatcherServing.NoneServed` | src/bin/watcher.rs:400-403 | if none works no bridge lives and the active device is the one before; with no device listed nothing happens |
| `WatcherServing.CheckedExactly` | src/bin/watcher.rs:249-283 | what a health check leaves behind in full: a dead bridge's device is handled again, an analyser that is down eight seconds or more after its start is restarted with the identity it had, and otherwise nothing changes |
| `WatcherServing.CheckedBridgeLives` | src/bin/watcher.rs:249-260 | after a check no dead bridge is held |
| `WatcherServing.PolledExactly` | src/bin/watcher.rs:420-461 | a polling cycle checks the active device or handles the first device that answers, whichever is listed first, and with neither leaves nothing active, no bridge held and none alive |
| `Watchers.Watcher.constructor` | src/bin/watcher.rs:59-85 | a new watcher has no bridge, no active device and no cooldowns |
| `Watchers.Watcher.CleanupBridges` | src/bin/watcher.rs:285-301 | the held bridge process is ended and its slot emptied; `active` is not touched |
| `Watchers.Watcher.StartBridge` | src/bin/watcher.rs:184-231 | entered only with an empty slot and no live bridge process; the slot is filled exactly when the program is found, spawned and survives |
| `Watchers.Watcher.IdentifyWithRetries` | src/bin/watcher.rs:151-157 | the first of three identifications that succeeds |
| `Watchers.Watcher.HandleNewDevice` | src/bin/watcher.rs:141-182 | old bridge away, then identify, record the outcome for that device, start, and only then set the active device |
| `Watchers.Watcher.CheckActiveBridgeHealth` | src/bin/watcher.rs:249-283 | a dead bridge's device is handled again, with its outcome recorded; an analyser out of its grace period whose process is gone is restarted; otherwise nothing changes |
| `Watchers.Watcher.HandleScanned` | src/bin/watcher.rs:327-330 | listed devices are handled in turn up to the first that succeeds, each outcome recorded behind what was there, and the records of the devices not handled are as they were |
| `Watchers.Watcher.HandlePlugged` | src/bin/watcher.rs:400-403 | plugged-in devices likewise up to the first that succeeds, each forgotten before it is handled: its record is then just the outcome of its last handling, and the records of the devices not handled are as they were |
| `Watchers.Watcher.HandleRemoved` | src/bin/watcher.rs:406-414 | a removed active device is released with its bridge, and the records of the removed devices and no others are gone |
| `Watchers.Watcher.VisitDevice` | src/bin/watcher.rs:442-449 | one visit is a skip, a failure or a success, and is recorded so |
| `Watchers.Watcher.VisitDevices` | src/bin/watcher.rs:435-450 | the cycle stops at the first device that is active or answers, every device before it has just its visit recorded, and those after it nothing |
| `Watchers.Watcher.PollingCycle` | src/bin/watcher.rs:420-461 | the device the cycle stops at is checked or handled, which its record shows, and with none the active device is released |
| `Watchers.Watcher.Quit` | src/bin/watcher.rs:416-417 | no bridge process is left |
| `MpdReplies.MpdReader.ReadLine` | src/core/mpd_client.rs:95-99 | one line of the stream is consumed, its newline included |
| `MpdReplies.MpdReader.ReadPairs` | src/core/mpd_client.rs:91-111 | the loop reads one reply up to its OK or ACK line and leaves what follows |
| `MpdReplies.ReadIsClean` | src/core/mpd_client.rs:91-111 | no pair ever read holds a newline, a separator in its key or a carriage return at its end |
| `MpdReplies.RoundTrip` | src/core/mpd_client.rs:91-111 | printed pairs are read back with nothing lost behind them if and only if all are clean |
| `MpdReplies.NoiseIgnored` | src/core/mpd_client.rs:100-110 | a line that is neither an OK nor an ACK line and has no separator changes nothing |
| `MpdReplies.CutOffIsClosed` | src/core/mpd_client.rs:95-99 | a stream that ends before the reply does counts as a closed connection, whatever pairs were read |
| `MpdReplies.RepliesInARow` | src/core/mpd_client.rs:91-116 | n replies in a row, failures among them, are told apart by n reads |
| `MpdSongs.SongFromPairs` | src/core/mpd_client.rs:214-220 | the loop applies the pairs in order |
| `MpdSongs.SongFromMap` | src/core/mpd_client.rs:222-228 | the loop applies the map's entries in some order |
| `MpdSongs.SongSettled` | src/core/mpd_client.rs:222-249 | each field of a song from an unambiguous map is what the map holds for it |
| `MpdSongs.MapFields` | src/core/mpd_client.rs:230-238 | every text field of a song from a map is what the map holds under the field's key, whatever the order |
| `MpdSongs.PairFields` | src/core/mpd_client.rs:230-238 | every text field of a song from pairs is the value of the last pair with the field's key |
| `MpdSongs.OrdersDisagree` | src/core/mpd_client.rs:239-246 | an ambiguous map has two orders with different durations |
| `MpdSongs.OrderIndependent` | src/core/mpd_client.rs:222-249 | the song does not depend on the order if and only if there is not both an unreadable duration and a readable time |
| `MpdSongs.MapAgreesWithPairs` | src/core/mpd_client.rs:214-249 | the song from a segment's map is the song from its pairs in every order if and only if its last duration can be read; or cannot, and neither can a time since nor the last time; or it has none, and its first readable time reads like its last |
| `MpdSongs.AtMostOnceAgrees` | src/core/mpd_client.rs:214-249 | in particular if the two keys occur at most once and the map is not ambiguous |
| `MpdSongs.SegmentsJoin` | src/core/mpd_client.rs:165-180 | the segments concatenate to the input |
| `MpdSongs.SegmentsStartWithFiles` | src/core/mpd_client.rs:165-180 | a file heads every segment but perhaps the first and stands nowhere else, and there are as many segments as files when the input starts with one |
| `MpdSongs.SegmentsUnique` | src/core/mpd_client.rs:165-180 | no other splitting has those properties |
| `MpdSongs.PlaylistInfo` | src/core/mpd_client.rs:165-180 | the one-pass loop gives one song per segment, in order, from that segment's map |
| `MpdSongs.GroupingIsSplitThenFold` | src/core/mpd_client.rs:165-228 | the result is splitting and then folding each segment's pairs, however the maps are iterated, if and only if every segment agrees so |
| `LogRotation.RotationKeeps` | src/core/logger.rs:64-92 | a rotation loses the oldest backup if there is one to replace it and otherwise nothing |
| `LogRotation.FileSink.constructor` | src/core/logger.rs:138-155 | the sink starts from the files that exist and the size of the current one |
| `LogRotation.FileSink.ShiftBackups` | src/core/logger.rs:64-87 | the renames in descending order move every file up by one |
| `LogRotation.FileSink.Rotate` | src/core/logger.rs:64-92 | nothing is logged or lost but the oldest backup; every backup is the file before it where there is one, and the current file is empty if there is a backup |
| `LogRotation.FileSink.WriteLine` | src/core/logger.rs:53-62 | the kept files, oldest first, are a whole-line suffix of everything logged; the line goes to the current file, which becomes the first backup exactly when the line fills it; after every line the counted size is that of the file if and only if there is a backup or no rotation yet |
| `LogRotation.FileSink.FileCount` | src/core/logger.rs:64-92 | at most backup_count + 1 files |
| `Reconnections.DelayDoubles` | src/core/reconnection.rs:60 | the delay after n >= 1 attempts is min(base * 2^n, 60) |
| `Reconnections.AttemptsAreSpaced` | src/core/reconnection.rs:38-62 | attempt n + 1 comes at least the sum over j = 1..n of min(base * 2^j, 60) after the first |
| `Reconnections.SlowedDown` | src/core/reconnection.rs:38-62 | once base * 2^n reaches a minute, attempts are at least a minute apart |
| `Reconnections.Reconnection.constructor` | src/core/reconnection.rs:22-32 | no attempt has been made |
| `Reconnections.Reconnection.ShouldAttempt` | src/core/reconnection.rs:38-62 | an attempt is made exactly if it is the first or the delay has passed, and attempts stay spaced |
| `Reconnections.Reconnection.Reset` | src/core/reconnection.rs:64-68 | the count starts again |
| `MpdCaches.RewindsPaired` | src/modules/mpd_bridge.rs:372-390 | no two rewinds are adjacent and there are at most as many as plain stops |
| `MpdCaches.TotalSums` | src/modules/mpd_bridge.rs:287-293 | the playing time of a list is the sum of the known durations |
| `MpdCaches.Cache.HandleStop` | src/modules/mpd_bridge.rs:372-390 | a stop rewinds if and only if the stop before it was plain and at most 3 s earlier |
| `MpdCaches.Cache.CalculatePlaylistTime` | src/modules/mpd_bridge.rs:280-299 | the answer is the time of the list last fetched, and it is the player's exactly when a fetch was made or the time is the same |

## Left out

- Statistics of the serial queue (peak depth, write times) and log text: they decide nothing.
- Wrap-around of the `u64` sequence counter, the `u32` error count and the `u32` sum of durations: all are unbounded here.
- Restarting a `SerialQueue` after `stop`: `connect` always builds a new queue, so one lifetime is modelled.
- The condition variable: a waiting worker looks again whenever it likes, as its timed wait allows.
- Termios, `open`, `poll`, `read(2)` and `write(2)`: their results are inputs. UTF-8 validity and the reading of numbers are parameters.
- JSON: opaque bytes with no raw newline whose first byte is not the sync byte, or an already decoded record.
- `identify_device` writes to the descriptor past the queue before anything is sent; that exchange is not on the modelled line.
- An analyser with 0 bars: its frame size would be 0, and `read_binary` divides by it, so frame sizes are positive here.
- `read_ascii`, which has no frames to reassemble.
- Time: the thread system has no clock; loops poll the stop flag once a turn.
- The other `LockCode` lemmas, one for each routine a turn calls, lead up to `HybridThreads.TurnAscends` and have no rows.
- SpectrumPath.SpectraInOrder: the critical level is taken as negative, as it is by default; text stands for every send but the reader's.
- `LockCode` gives the guards of each routine and the outcomes that choose between them; data computed under the guards is not part of that view, and the outcomes of one routine are not tied to another's.
- FairShutdown.FairRunsComplete: fair means that a thread that can step again and again does step. Asking it only of a thread that can step without interruption would not do (`FairSchedules.WeakFairnessStarves`): a mutex that is handed over in no order may always be taken by a queue worker first.
- `try_wait` is taken as exact, and `pkill` is not modelled: with at most one bridge process there is nothing else of ours to end.
- Watchers.Watcher.PollingCycle: its devices are listed once each, as `find_devices` builds them (`src/bin/watcher.rs:519-554`).
- LogRotation.FileSink.Rotate: renames of existing files, writes and reopening succeed.
- MpdReplies.MpdReader.ReadPairs: the stream is finite and is read as characters; timeouts and invalid UTF-8 would end it with an error.
- `cava_bridge.rs` (the hybrid bridge's frame path without its threads), `sysinfo_bridge.rs`, `config_manager.rs`, `action_runner.rs` and `bridge.rs` would only add easier members.
