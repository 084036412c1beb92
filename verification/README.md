# CoreNest Sentinel: models of the telemetry path and the stateful engines

A Dafny 4.11 model of two parts of CoreNest Sentinel, with proofs:

* the endpoint agent (WatchNode): the write-ahead disk queue, the path from
  collectors through it to the stream's batches, the value mapping to protobuf,
  the firewall side of active response, and the manager's command queues;
* the dashboard's stateful engines: entity normalisation, correlation incidents,
  the merged aggregation behind them, the silent-source monitor, filter rules
  spliced into searches, timestamp rewriting, reference sets, the alert cursor
  and throttle, and the two request limiters.

Critical sections, channel operations and SQL statements are single steps; runs
are arbitrary sequences of steps, so a theorem about runs is about every
interleaving of those steps. The dashboard's locks are a process's own, and it
is started with four worker processes of two threads (Dockerfile:12): where
processes share a table (`OverlappingJobs`, `SharedIncidents`,
`OverlappingChecks`, `OverlappingNotices`) the statements of one operation are
steps apart. Code that updates state in place is a class or a loop proved
against the step functions (`DiskQueues.DiskQueue`, `Pipeline.Agent`,
`Delivery.RunStream`, `ActiveResponse.Agent`, `IncidentJobs.CorrelationStore`,
`Aggregation.BucketEntity`, `SilentSources.SilentMonitor`,
`LogFilters.FilterStore`, `LogFilters.QueryBody`,
`ReferenceSets.ReferenceStore`, `RateLimiter.Limiter`,
`AlertCursor.AlertWatcher`, `CommandStore.Store`).

`dafny verify dfyconfig.toml` checks everything.

## How the queue is proved

`QueueSteps` is the queue over bytes: the log file, the checkpoint file, the three
offsets, the reader's cursor and the bounded channel. `RecordLog` is the queue a
user has in mind: a list of lines and indices into it. `QueueRefinement` shows
that every step over bytes is a step of the record log, which rests on `Json`,
`WalCodec` and `WalFrame` (encoded lines hold no raw newline, so scanning counts
bytes exactly). `CrashSafety` states the guarantees over whole runs, with crashes
and restarts anywhere. Compaction there is one atomic step that also moves the
reader's cursor back: this is the intended protocol, not the code's.

`QueueAsWritten` is the code's own protocol. The reader keeps one file open for a
whole pass and reads ahead; tryCompact decides, copies, swaps or truncates, and
resets the checkpoint in separate sections; writes, reads, ticks and crashes fall
between any two of them. Every byte of the file is known by the line it came from,
and `FileIsFrame` and `ScanSeesToken` tie that to the bytes. `AllHandedIff` says,
over whole runs, exactly when every accepted line is still handed over;
`QueueUncompacted` shows that this is so, crashes included, as long as nothing is
compacted, `QueueAgreement` that its runs without a compaction are runs of
`QueueSteps`, and `QueueLosses` runs the agent from files on disk to accepted points
that nobody is ever handed.

`Pipeline` puts collectors, the queue, the RAM channel, RunStream and crashes into
one step system; `PipelineLog` shows that its queue performs runs of `QueueSteps`,
so the theorems above hold of it, and what each RunStream received. `ManagerFields`
ends the way: what the manager keeps of a point is what the collector put in.

Searches have two readings here: `Query` evaluates the clauses the filters build,
`QueryTimestamps` the JSON the dashboard sends. `QueryMeanings` proves that they agree,
so the splice and the rewriting are about the same engine.

## Where the code departs from what it says

Each of these is a lemma, stated for every input of the failing family.

* Disk queue, "at-least-once" (diskqueue.go:35-37). The checkpoint records the
  hand-over to the channel, so a crash loses checkpointed points that the stream
  never read: the stream's view has a gap iff some crash finds such a point before
  the checkpoint.
* Compaction (diskqueue.go:237-317) never moves the reader's position back. A
  swap under a reader in the middle of a pass takes nothing from it, as it goes
  on with the old file; but from then on its position lies past the end of the
  new file, so the points written next are lost until a restart, and the
  old-file offset it publishes makes the next tick empty the new file, which
  loses them for good. Both happen to an agent started on a file with the
  checkpoint in its last fifth. A swap while the reader waits skips what it has
  yet to read. Points accepted between the decision and a truncation vanish if
  the reader has not reached them. A crash between the rename and the checkpoint
  reset leaves a checkpoint past the end of the file.
* Fallback to RAM (agent.go:309-330). With a disk queue the stream reads only the
  queue's output, so a point that falls back to the RAM channel is never sent.
* Value mapping. On the disk path integers arrive as doubles (changed iff no double
  holds them), a float32 as the double nearest to its 32-bit numeral (changed iff
  that needs more than 24 bits; one tenth is), byte slices as base64 text, and
  scalars of kinds the switch does not list (uint16, durations, named strings) as
  plain values instead of JSON text; on the RAM path unsigned values from 2^63 wrap.
* Active response. A block's timer is never cancelled, so a left-over timer ends a
  later block of the same address early, and likewise a later isolation. Releasing
  a host that is not isolated opens its policies and deletes equal rules of the
  operator's.
* Correlations across worker processes. The look-up and the write of a record are
  under a lock that other processes do not hold. Two of them that both look before
  either writes open two incidents of one pair if the first-seen times differ; if
  they are equal the second raises although one is open, and its detector's list is
  lost. A row resolved in between is rewritten all the same.
* Correlations. Resolving an incident whose window still begins at the same
  event makes the next observation violate the unique key; the detector raises
  and its list of rows already opened is lost: they are never announced. Whether
  a job does that can be told from the table before it. A timestamp of zero
  counts as missing. A document naming a user in two alias fields counts twice.
* Notifications. Incident notices carry no agent id, so all incidents of one rule
  share a throttle slot: the second within the window is marked notified but not
  delivered. A colon in a rule id can put two rules into one slot. A notice below
  level 8 takes the slot too, and nothing passes before
  the monotonic clock has reached the window.
* Alert cursor. Alerts that share the time of the last of a full page are skipped
  for good.
* Filter rules. `contains` is a substring test iff the value has no `*`, `?` or
  backslash; `equals` with a numeral such as 007 does not exclude that text; a
  single-object `must_not` is a TypeError.
* Timestamps. A bound the parsers do not know (date arithmetic such as now-1h)
  becomes null and stops bounding; milliseconds before September 2001 are taken
  for seconds; options such as format, if strings, are rewritten like bounds.
* Silent sources. Two overlapping checks of one silent source open two incidents, or
  announce one twice.
* Login lockout (app.py:499-514). The lock check and the record of a failure are two
  sections: with k requests between them at once, 4 + k failed guesses fit into the
  900 seconds. Every worker process counts for itself: with w workers and k requests
  added up over them, 4 w + k fit, twenty-four for the four workers of two threads of
  Dockerfile:12.
* Command streams (server.go:156-170). Until its sender notices the end of a stream
  it may go on taking commands, each accepted and none delivered.
* Host names. Normalising is idempotent iff the first label has no whitespace
  before its dot.

## Model

| member | source | states |
|---|---|---|
| Json.DocumentRoundTrip | WatchNode/internal/queue/diskqueue.go:104-172 | parsing a printed JSON document gives the document back (sections 2 to 7 of RFC 8259) |
| Json.CharsRoundTrip | WatchNode/internal/queue/diskqueue.go:104-108 | every byte string survives escaping and unescaping, line separators included |
| Json.PrintHasNoControl | WatchNode/internal/queue/diskqueue.go:104-108 | printed JSON holds no raw control character (section 7 of RFC 8259) |
| Json.IntTextIsNumeral | WatchNode/internal/queue/diskqueue.go:98-104 | a printed integer is a JSON number (section 6 of RFC 8259) |
| Json.NumeralFits | WatchNode/internal/queue/diskqueue.go:104-172 | so is every numeral with sign, fraction and exponent, and the parser takes it whole |
| Json.Utf8RoundTrip | WatchNode/internal/queue/diskqueue.go:170-172 | an escaped code point is read as the fewest bytes that stand for it (section 3 of RFC 3629) |
| WalCodec.LineRoundTrip | WatchNode/internal/queue/diskqueue.go:97-180 | reading back a written line gives the point, up to whole milliseconds and each field as the plain JSON value it was written as: numbers as doubles, bytes as base64, trees as trees |
| WalCodec.LineIsClean | WatchNode/internal/queue/diskqueue.go:97-108 | a record holds neither newline nor carriage return |
| WalCodec.EncodeFailsIff | WatchNode/internal/queue/diskqueue.go:104-107 | marshalling fails exactly for points holding NaN, an infinity, or a value Marshal refuses |
| WalCodec.Base64RoundTrip | WatchNode/internal/queue/diskqueue.go:104 | the base64 text a byte slice is written as gives its bytes back (section 4 of RFC 4648) |
| WalCodec.DataPointToProto | WatchNode/internal/communication/convert.go:12-23 | the field loop builds the map that gives each name its last value |
| ManagerFields.SentCarries | WatchNode/internal/communication/convert.go:25-57 | a sent value carries what the collector put in, kind by kind: the same text, flag, bytes or integer, unsigned modulo 2^64, the nearest double or float32 to the numeral, for any other kind a text that reads as its JSON form |
| ManagerFields.ManagerKeepsWhatWasCollected | WatchTower/internal/server/grpc/handler.go:322-345 | from collector to manager: the last field of each name is kept as what the collector put in, no other field is kept, and the time is cut to the millisecond |
| Floats.NearestIsNearest | WatchNode/internal/communication/convert.go:42-45 | a numeral is read as the double, and as the float32, that no other is nearer to |
| Floats.ToMultipleIsNearest | WatchNode/internal/communication/convert.go:42-45 | of two as near the even one is taken |
| Decimal.RealOfNumeral | WatchNode/internal/communication/convert.go:42-45 | a numeral with sign, point and exponent stands for its digits shifted by powers of ten |
| Floats.IntIsExactIff | WatchNode/internal/communication/convert.go:32-45 | rounding to the nearest double keeps an integer iff it is a double |
| Floats.WholeReads | WatchNode/internal/queue/diskqueue.go:170-179 | a printed integer is read back as the double the integer rounding names, over all magnitudes and the smallest doubles |
| Floats.SameFloatIff | WatchNode/internal/communication/convert.go:42-45 | a numeral is the same number as a float32 and as a double iff the double is a whole number of float32 gaps there |
| Floats.OneTenthDiffers | WatchNode/internal/communication/convert.go:42-45 | one tenth is not |
| WalCodec.PathsAgreeIff | WatchNode/internal/communication/convert.go:25-57 | exactly which field values, of every kind, read the same on the disk path and the RAM path |
| WalCodec.TreeTextIff | WatchNode/internal/communication/convert.go:50-55 | a slice or map has the same JSON text again iff every number in it is printed alike as a double |
| WalCodec.Float32Changes | WatchNode/internal/collectors/system/collector.go:151-157 | a memory percentage of one tenth, a float32, arrives as a different number over the log |
| Floats.SmallIntegersAreDoubles | WatchNode/internal/communication/convert.go:32-45 | integers up to 2^53 are always exact, 2^53 + 1 is not |
| WalCodec.DiskPathSendsSamePoint | WatchNode/internal/communication/convert.go:12-23 | both paths send the same type, tags, millisecond time and field names, and fields as PathsAgreeIff says |
| WalFrame.ScanFirst | WatchNode/internal/queue/diskqueue.go:164-169 | scanning a file of clean lines yields its first line and a count that is exactly that line's bytes |
| WalFrame.ScanAtBoundary | WatchNode/internal/queue/diskqueue.go:164-169 | scanning from any record boundary yields that record and stops at the next boundary |
| WalFrame.FrameTail | WatchNode/internal/queue/diskqueue.go:271-291 | cutting the file at a boundary leaves the file of the remaining records |
| WalFrame.CarriageReturnLosesCount | WatchNode/internal/queue/diskqueue.go:167-169 | on foreign bytes the scanner drops a carriage return and the position falls one byte short |
| QueueSteps.CkptRoundTrip | WatchNode/internal/queue/diskqueue.go:319-334 | what saveCheckpoint writes is what loadCheckpoint reads; no file, or an empty one, is offset 0 |
| QueueSteps.RunKeepsChannel | WatchNode/internal/queue/diskqueue.go:60-70 | in no run does the output channel hold more than 2048 points |
| RecordLog.StepKeepsInv | WatchNode/internal/queue/diskqueue.go:97-233 | every step of the record log keeps checkpoint, sent position, cursor and end in order and the channel equal to what was handed over and not taken |
| QueueRefinement.RefineStep | WatchNode/internal/queue/diskqueue.go:59-317 | under the intended compaction, one atomic step with a rebased cursor, each byte-level step, crash and restart included, is a step of the record log |
| QueueRefinement.RefineRun | WatchNode/internal/queue/diskqueue.go:59-317 | so is every run, in any interleaving |
| QueueRefinement.RefineCompact | WatchNode/internal/queue/diskqueue.go:237-317 | the intended compaction keeps exactly the unacknowledged records, all offsets on boundaries, and the future output |
| QueueRefinement.RefineCrash | WatchNode/internal/queue/diskqueue.go:57-93 | a crash keeps the files and drops memory, cursor and channel |
| CrashSafety.OffsetsStayOnBoundaries | WatchNode/internal/queue/diskqueue.go:47-93 | in every reachable state checkpoint, sentPos, cursor and end are record boundaries in this order |
| CrashSafety.HandedInOrderWithoutGap | WatchNode/internal/queue/diskqueue.go:141-233 | what is handed to outCh over all incarnations is runs through the one log in file order, none beginning beyond where an earlier one stopped |
| CrashSafety.NothingAcceptedIsLost | WatchNode/internal/queue/diskqueue.go:95-204 | once a reader has caught up, every point whose Write returned nil has been handed over |
| CrashSafety.RestartRepeatsFromCheckpoint | WatchNode/internal/queue/diskqueue.go:88-90 | a crash repeats exactly what lies behind the saved checkpoint |
| CrashSafety.TakenWithoutGapIff | WatchNode/internal/queue/diskqueue.go:206-233 | over any run the streams of all incarnations have together received every decodable line up to where the last stands iff no crash finds, before the saved checkpoint, a decodable line that none of them had reached |
| CrashSafety.CoveredIsTaken | WatchNode/internal/queue/diskqueue.go:130-133 | a line within some incarnation's received stretch is among the points received |
| CrashSafety.AcceptedIsTaken | WatchNode/internal/queue/diskqueue.go:130-233 | if no crash strands a point, every point whose Write returned nil and that lies before the stream's place has been received |
| CrashSafety.CheckpointedButNeverTaken | WatchNode/internal/queue/diskqueue.go:213-226 | any accepted point can be checkpointed, lost in a crash and never received |
| Compaction.RebasingIsWhatKeepsThePendingInput | WatchNode/internal/queue/diskqueue.go:255-315 | of all cursors only the one moved back by the bytes cut sees the same pending input |
| Compaction.CrashBeforeCheckpointReset | WatchNode/internal/queue/diskqueue.go:298-316 | after a crash between rename and checkpoint reset none of the kept records is read |
| QueueAsWritten.AllHandedIff | WatchNode/internal/queue/diskqueue.go:141-317 | over any run of writer, reader, checkpointer and crashes, a quiet reader has handed over every accepted line iff the last restart found all others behind the checkpoint and no step since was a write below the reader's place, a truncation of an unreached line, or a swap without one |
| QueueAsWritten.AcceptedIsHanded | WatchNode/internal/queue/diskqueue.go:95-204 | then every point whose Write returned nil has been handed over, as the log renders it |
| QueueAsWritten.StepSafeIff | WatchNode/internal/queue/diskqueue.go:97-317 | step by step: nothing but those three dooms a line, and no step but a restart saves one |
| QueueAsWritten.SwapUnderReader | WatchNode/internal/queue/diskqueue.go:148-191 | a rename under a reader in the middle of the live file dooms nothing: it reads on in the old one |
| QueueLosses.WriteAfterSwapIsLost | WatchNode/internal/queue/diskqueue.go:194-202 | after a swap that cut more than it kept the next accepted point is lost, whatever the reader is doing |
| QueueLosses.CopyIsShort | WatchNode/internal/queue/diskqueue.go:247-249 | by the 80% rule every swap is such a one unless the file grew by three fifths of its size meanwhile |
| QueueLosses.WriteAfterAnySwapIsLost | WatchNode/internal/queue/diskqueue.go:194-314 | in any run from a state in which no offset is past the reader's count, the files on disk for one: the point accepted after a swap that cut more than it kept is handed to nobody until the agent restarts |
| QueueLosses.FirstCompactionLosesAPoint | WatchNode/internal/queue/diskqueue.go:213-314 | such a run exists for every file with the checkpoint in its last fifth and room for what is left: tick, decide, copy, swap, and the point written then is accepted and doomed |
| QueueLosses.StaleOffsetEmptiesTheFile | WatchNode/internal/queue/diskqueue.go:184-188 | an old-file offset published after a swap makes the next tick empty the new file: a line the reader does not hold has vanished |
| QueueLosses.VanishedStays | WatchNode/internal/queue/diskqueue.go:59-317 | a line that begins in no file, copy or buffer any more is handed to nobody in any later run, crashes and restarts included |
| QueueLosses.StaleOffsetLosesForGood | WatchNode/internal/queue/diskqueue.go:141-317 | a run from files on disk that gets there: a compaction under a reader with a point in hand, a point accepted after it, and that point has vanished |
| QueueUncompacted.NoLossWithoutCompaction | WatchNode/internal/queue/diskqueue.go:57-204 | from the files on disk, without a compaction and with crashes and restarts anywhere: once the reader is quiet every line of the files and every point whose Write returned nil has been handed over |
| QueueUncompacted.RunKeepsTidy | WatchNode/internal/queue/diskqueue.go:57-233 | in every state of such a run no offset in memory, in the checkpoint or in the checkpointer's hands lies past a line not yet gone over, so every restart finds what is left |
| QueueAgreement.RunsAgree | WatchNode/internal/queue/diskqueue.go:57-233 | as long as nothing is compacted, the goroutines as written accept the same points, hand over the same points and leave the same bytes and offsets as a run of QueueSteps, crashes and restarts included |
| QueueAgreement.FromTheFiles | WatchNode/internal/queue/diskqueue.go:57-93 | so does every such run from the files on disk |
| QueueAgreement.TickAgreesAlone | WatchNode/internal/queue/diskqueue.go:213-317 | a tick of the checkpointer with nothing between its sections always ends, and changes files and offsets as the atomic compaction of QueueSteps does, but leaves the reader's place where it was |
| QueueAsWritten.RunKeepsInv | WatchNode/internal/queue/diskqueue.go:59-317 | in every reachable state each file is whole lines behind at most one torn one, and the reader's count is its file offset less what it read ahead |
| QueueAsWritten.FileIsFrame | WatchNode/internal/queue/diskqueue.go:97-117 | its file of line bytes is the write-ahead log of those lines |
| QueueAsWritten.ScanSeesToken | WatchNode/internal/queue/diskqueue.go:164-169 | the scanner's next token on those bytes is the line the model takes, torn or whole |
| QueueCost.CopyingIsAmortised | WatchNode/internal/queue/diskqueue.go:243-291 | over any run four times the bytes copied is at most the bytes on disk at the start plus those written |
| QueueCost.CountsAreReal | WatchNode/internal/queue/diskqueue.go:271-291 | the bytes counted are those a write adds to the file and those the file holds after a compaction that changed it |
| QueueCost.CountsAddUp | WatchNode/internal/queue/diskqueue.go:271-291 | over a run both counts add up |
| QueueCost.CompactsIff | WatchNode/internal/queue/diskqueue.go:238-249 | the intended compaction cuts the log iff something, and at least four fifths of the log, is acknowledged |
| QueueCost.FileStaysWithinOneLine | WatchNode/internal/queue/diskqueue.go:110-117 | the file never reaches maxBytes plus one record length |
| DiskQueues.DiskQueue.constructor | WatchNode/internal/queue/diskqueue.go:59-93 | opening the queue on any two files sets the three offsets from them |
| DiskQueues.DiskQueue.Write | WatchNode/internal/queue/diskqueue.go:97-128 | is the Write step and reports whether the point was accepted |
| DiskQueues.DiskQueue.ReadPass | WatchNode/internal/queue/diskqueue.go:148-203 | is a sequence of reader steps that stops only at the end of the file or at a full channel |
| DiskQueues.DiskQueue.Receive | WatchNode/internal/queue/diskqueue.go:130-133 | is the stream's receive from the output channel |
| DiskQueues.DiskQueue.CompactGuard | WatchNode/internal/queue/diskqueue.go:238-249 | the first section: whether to compact, and the acknowledged offset |
| DiskQueues.DiskQueue.CompactTruncate | WatchNode/internal/queue/diskqueue.go:255-268 | the truncating section empties the file and the offsets and leaves checkpoint and cursor |
| DiskQueues.DiskQueue.CompactCopy | WatchNode/internal/queue/diskqueue.go:271-291 | the copy is the file from the offset the guard saw |
| DiskQueues.DiskQueue.CompactSwap | WatchNode/internal/queue/diskqueue.go:297-314 | the swap puts the copy in the file's place, rebases sentPos and leaves checkpoint and cursor |
| DiskQueues.DiskQueue.CompactReset | WatchNode/internal/queue/diskqueue.go:315-317 | the reset writes a zero checkpoint and nothing else |
| DiskQueues.DiskQueue.TryCompact | WatchNode/internal/queue/diskqueue.go:237-317 | its sections with nothing between them: files and offsets change as the step says, the cursor does not |
| DiskQueues.DiskQueue.Tick | WatchNode/internal/queue/diskqueue.go:219-231 | the intended protocol: one checkpointer tick, with the cursor moved back as well, is the four steps |
| DiskQueues.DiskQueue.Shutdown | WatchNode/internal/queue/diskqueue.go:337-346 | saves the sent position |
| Delivery.BackoffDoubles | WatchNode/internal/communication/client.go:215-221 | the doubling loop computes min(max, initial * 2^k) |
| Delivery.OnStreamEvent | WatchNode/internal/communication/client.go:264-289 | one select keeps attempted batches plus pending equal to what was received, batches within 1..batchSize |
| Delivery.NextBackoff | WatchNode/internal/communication/client.go:215-221 | one update moves from the k-th to the next capped wait |
| Delivery.RegisterWithRetry | WatchNode/internal/agent/agent.go:347-371 | registration retries as long as it is rejected, the k-th wait the capped power of two |
| Delivery.RunStream | WatchNode/internal/communication/client.go:198-291 | over any events: attempted batches followed by the pending batch are the points consumed, in order, across reconnects; sizes 1..batchSize; the waits |
| Delivery.PhaseIs | WatchNode/internal/communication/client.go:198-291 | from the events alone: the loop has returned iff one of them makes it, and till then a stream is up iff the last of Connected and StreamDone is Connected |
| Delivery.ConsumedIff | WatchNode/internal/communication/client.go:264-289 | a point is consumed iff a stream is up when it comes and the loop has not returned |
| Delivery.SinceFlushIs | WatchNode/internal/communication/client.go:264-289 | over any events: the points of the batch being filled, full batches apart, are those received since the last flush tick or the start of the stream |
| Delivery.ReceivesAfterReconnect | WatchNode/internal/communication/client.go:271-274 | after a stream ends the loop opens the next one and consumes the point that comes then |
| Delivery.WaitsBeginAnew | WatchNode/internal/communication/client.go:215-221 | after a stream has ended the waits begin again at the first |
| Pipeline.EveryPointInOnePlace | WatchNode/internal/agent/agent.go:296-330 | over any interleaving of collectors, queue, stream and crashes each point handed over is in the log, in or through the RAM channel, dropped, with its goroutine or lost with it, exactly once; and each point ever in the RAM channel was sent, lost or is there |
| Pipeline.EachCollectorInOrder | WatchNode/internal/agent/agent.go:297-330 | each collector's points keep their order in the log, in the RAM channel and among those dropped |
| Pipeline.DropsOnlyWhenFull | WatchNode/internal/agent/agent.go:318-330 | in every reachable state a point is dropped only at a full RAM channel, and costs nothing else there |
| Pipeline.RamIsNeverSent | WatchNode/internal/agent/agent.go:168-184 | with a disk queue nothing in the RAM channel ever reaches the stream |
| PipelineLog.QueueRuns | WatchNode/internal/agent/agent.go:309-316 | the pipeline's queue performs a run of the queue's steps, and the points it accepts there are those put into the log, in order |
| PipelineLog.StreamsShareTheLog | WatchNode/internal/communication/client.go:198-291 | what each RunStream received, and so its batches and the batch being filled, is a stretch of the one log in its order, from the checkpoint it started at, over all incarnations |
| PipelineLog.WalledReachesAStream | WatchNode/internal/agent/agent.go:168-226 | if no crash strands a point, every point put into the log before the last stream's place was received by some RunStream |
| PipelineLog.StreamsShareTheRam | WatchNode/internal/agent/agent.go:168-226 | without a disk queue, over any run: what the RunStreams consumed, one incarnation after another, is what left the RAM channel, in order |
| Pipeline.QueueTakesAllIff | WatchNode/internal/agent/agent.go:309-316 | with a disk queue, compactions, crashes and restarts included, every point collected goes into the log iff each encodes and, counting the bytes before it less the bytes reclaimed, finds the log below its limit |
| Pipeline.NothingDroppedIff | WatchNode/internal/agent/agent.go:318-330 | without one nothing is dropped iff the arrivals the stream has yet to receive never exceed the channel's capacity |
| Pipeline.Agent.FanIn | WatchNode/internal/agent/agent.go:302-330 | the loop body for one point is its two steps |
| Pipeline.Agent.StreamReceives | WatchNode/internal/agent/agent.go:168-226 | the stream's receive is from the disk queue if there is one, else from the RAM channel |
| Firewall.IsolateGives | WatchNode/internal/agent/commands.go:566-579 | the inserts put one known block of rules in front of each chain |
| Firewall.BlockWhileIsolated | WatchNode/internal/agent/commands.go:420-450 | blocks and unblocks on an isolated host act on its own rules |
| Firewall.BlockRefuses | WatchNode/internal/agent/commands.go:420 | blocking refuses the packets of its address that no earlier rule decides, and changes nothing for any other packet, in or out |
| Firewall.UnblockSpares | WatchNode/internal/agent/commands.go:440-450 | lifting a block changes nothing for packets of other addresses |
| Firewall.UnisolateUndoes | WatchNode/internal/agent/commands.go:599-611 | lifting isolation removes exactly what isolating inserted, duplicates and equal operator rules notwithstanding |
| Firewall.IsolatedPasses | WatchNode/internal/agent/commands.go:548-579 | exactly which packets pass an isolated host, by first match |
| Firewall.DeleteInFront | WatchNode/internal/agent/commands.go:602-610 | delete-first-match in a front part leaves the back part alone, and the reverse |
| ActiveResponse.IsolationLeavesNoTraceIff | WatchNode/internal/agent/commands.go:485-529 | isolate, any drops and unblocks, release: the chains are those of the drops and unblocks alone; nothing remains iff both policies were ACCEPT |
| ActiveResponse.LifelineHolds | WatchNode/internal/agent/commands.go:548-579 | while isolated a packet passes iff lifeline, loopback, established or accepted by a rule of the host's own, whatever is dropped later |
| ActiveResponse.StrayReleaseIsHarmlessIff | WatchNode/internal/agent/commands.go:514-529 | releasing a host that is not isolated is harmless iff both policies are ACCEPT and none of the deleted rules exists |
| ActiveResponse.NothingOutlivesItsTtl | WatchNode/internal/agent/commands.go:341-356 | in any run, once no due timer waits, no block or isolation is older than its TTL and no drop rule or closed policy is left over |
| ActiveResponse.SurvivesIffNoTimerDue | WatchNode/internal/agent/commands.go:341-356 | a block survives the due timers iff none of them is for its address |
| ActiveResponse.BlockedIsRefused | WatchNode/internal/agent/commands.go:227-250 | in any run a packet from a blocked address is refused unless a rule before its drop rule accepts it |
| ActiveResponse.DropTakesEffect | WatchNode/internal/agent/commands.go:227-250 | a drop command for an address neither safelisted nor blocked records the block and refuses the packets of the address that no earlier rule decides; all others fare as before |
| ActiveResponse.SafelistedIsLeftAlone | WatchNode/internal/agent/commands.go:227-250 | in any run a safelisted address is never blocked and gains no drop rule, and a drop command for it changes nothing |
| ActiveResponse.BlockLastsIff | WatchNode/internal/agent/commands.go:234-249 | a block stands at a time within its TTL iff no earlier timer of its address is due by then |
| ActiveResponse.IsolationLastsIff | WatchNode/internal/agent/commands.go:341-356 | an isolation stands at a time within its TTL iff no timer left over from an earlier one is due by then |
| ActiveResponse.IsolateTakesEffect | WatchNode/internal/agent/commands.go:485-512 | isolating an open host whose manager has an address lets nothing through but the lifeline and what the host's own rules accept; otherwise it does nothing |
| ActiveResponse.ReleaseTakesEffect | WatchNode/internal/agent/commands.go:251-257 | releasing opens both policies and lifts no block, unblocking lifts the one of its address |
| ActiveResponse.DueTimerGoesOff | WatchNode/internal/agent/commands.go:341-356 | a timer goes off when due and not before, once, and lifts its block or the isolation and nothing else |
| ActiveResponse.FireDueIsARun | WatchNode/internal/agent/commands.go:341-356 | the due timers can go off one after another, and then none is left |
| ActiveResponse.WithoutTtlNoTimer | WatchNode/internal/agent/commands.go:245-249 | as long as no TTL is configured no run has a timer |
| ActiveResponse.ClockAndTtl | WatchNode/internal/agent/commands.go:656-657 | in any run only passing time moves the clock, only the configuration the TTL, and nothing the safelist |
| ActiveResponse.Agent.ExecuteDrop | WatchNode/internal/agent/commands.go:227-250 | the drop command, safelist and repeated block included, is the drop step |
| ActiveResponse.Agent.ExecuteUnblock | WatchNode/internal/agent/commands.go:251-257 | the unblock command is the unblock step |
| ActiveResponse.Agent.IsolateNetwork | WatchNode/internal/agent/commands.go:551-580 | the insert loop makes the isolated filter |
| ActiveResponse.Agent.UnisolateNetwork | WatchNode/internal/agent/commands.go:584-612 | the delete loop makes the released filter |
| ActiveResponse.Agent.RunIsolateHost | WatchNode/internal/agent/commands.go:485-512 | isolating, refused without a manager address, is the isolate step |
| ActiveResponse.Agent.RunUnisolateHost | WatchNode/internal/agent/commands.go:514-529 | releasing, with remembered or re-resolved addresses, is the release step |
| ActiveResponse.Agent.TimerFires | WatchNode/internal/agent/commands.go:341-356 | a timer's wake-up is the timer step |
| Incidents.StepKeepsSound | corenestDashboard/correlations.py:51-72 | one process, whose lock makes a record one step: every table step keeps ids ascending, the unique key, and one open row per detector and entity |
| Incidents.RunKeepsSound | corenestDashboard/correlations.py:158-238 | one process: at most one open row for each (detector, entity) in every reachable state |
| Incidents.RowsOnlySucceed | corenestDashboard/correlations.py:177-238 | one process: over any run a row keeps id, key and first-seen time; a resolution is final and freezes the contents; marks are only ever set |
| Incidents.RecordTouchesOnlyLastSeen | corenestDashboard/correlations.py:174-192 | a refresh touches one open row of the pair and only what was seen last |
| Incidents.RecordedIsHeld | corenestDashboard/correlations.py:158-206 | after a record that does not raise the newest open row of the pair holds what was observed; a new one is unmarked, without a case, with the next id |
| Incidents.UpdatesTakeEffect | corenestDashboard/correlations.py:209-244 | resolving, marking and linking change that one column of the row with the id and nothing else |
| Incidents.EachRowIsOpenedOnce | corenestDashboard/correlations.py:186-201 | the rows returned as newly opened are exactly the rows added, each once, in order, in any interleaving |
| Incidents.RecordRaisesIff | corenestDashboard/correlations.py:51-72 | one process: recording raises iff the pair has no open row but a resolved one with the same first-seen time |
| Incidents.ResolvedWhileInWindowRaises | corenestDashboard/correlations.py:229-238 | resolving while the window still begins at the same event makes the next observation raise |
| LostIncidents.ReturnsAllIff | corenestDashboard/correlations.py:588-609 | one process: run_all returns every row it opened iff no detector opens a row at one entity and finds, at a later one, a resolved incident with the same first-seen time and no open one, read off the table before the job |
| IncidentJobs.ClashDropsEarlierOpened | corenestDashboard/correlations.py:588-609 | one clash after one opened row: the row is in the table and nothing is returned |
| OverlappingJobs.EachRowInOnePlace | corenestDashboard/app.py:4920-4935 | however jobs of all worker processes overlap, look-ups and writes apart: every row ever opened is announced, lost, in a running detector's list or due, exactly once, and marked iff announced |
| OverlappingJobs.AnnouncedOnceOrNever | corenestDashboard/app.py:4920-4935 | when they are over no row was announced twice, none both announced and lost, and all are marked iff none was lost |
| OverlappingJobs.JobCanFinish | corenestDashboard/app.py:4938-4957 | in any state a job can end its detector and announce every row it opened and did not lose, in order |
| SharedIncidents.RecordAcrossProcesses | corenestDashboard/correlations.py:170-201 | a record with anything between its SELECT and its write: it opens a row iff none was open at the look-up and the key is free at the write; it raises iff none was open at the look-up and the key is taken at the write, and then its detector's list is lost |
| SharedIncidents.TwoOpenIff | corenestDashboard/correlations.py:158-238 | however worker processes overlap, no pair ever has two open incidents iff no insert happens while one is open that was not at its look-up |
| SharedIncidents.TwoLooksThenTwoWrites | corenestDashboard/correlations.py:170-201 | two processes that look while nothing is open and then write: two open incidents iff the first-seen times differ; iff they are equal the second raises, although one is open, and loses its detector's list |
| SharedIncidents.NothingLostIff | corenestDashboard/correlations.py:588-609 | over any run of all processes no opened row is lost iff no detector raises while its list holds one |
| SharedIncidents.ResolvedIsFrozenIff | corenestDashboard/correlations.py:172-188 | however processes overlap, every row keeps identity and marks and no resolved incident is ever rewritten iff no write finds its row resolved since its look-up |
| SharedIncidents.RunKeepsKeyed | corenestDashboard/correlations.py:51-72 | whoever writes, ids ascend and the unique key holds |
| SharedIncidents.OneProcessIsAtomic | corenestDashboard/correlations.py:170-201 | while one process is alone, its lock makes the two halves one: the table is that of a run of whole records, so the results on Incidents hold of it, and no pair ever has two open incidents |
| IncidentJobs.CorrelationStore.RecordIncident | corenestDashboard/correlations.py:158-201 | the lookup, refresh, insert chain is the record step with its outcome |
| IncidentJobs.CorrelationStore.ResolveIncident | corenestDashboard/correlations.py:229-238 | is the resolve step and reports whether an open row had the id |
| IncidentJobs.CorrelationStore.SetCaseId | corenestDashboard/correlations.py:204-210 | links the case and changes nothing else |
| IncidentJobs.CorrelationStore.MarkNotifiedRow | corenestDashboard/correlations.py:221-226 | marks the row and changes nothing else |
| IncidentJobs.CorrelationStore.RunDetector | corenestDashboard/correlations.py:426-479 | a detector's loop returns its opened rows, or raises at the first clash |
| IncidentJobs.CorrelationStore.RunDetectors | corenestDashboard/correlations.py:588-609 | the loop over detectors swallows a raise with the detector's list |
| IncidentJobs.CorrelationStore.CorrelationsRunJob | corenestDashboard/app.py:4920-4935 | the job announces and marks exactly the returned rows |
| Entities.CaseIsIrrelevant | corenestDashboard/entities.py:43-84 | letter case never changes a key, for any kind and text |
| Entities.NormalizeUserRaw | corenestDashboard/entities.py:48-52 | whitespace around the raw value never changes a user key |
| Entities.DownLevelFormCollapses | corenestDashboard/entities.py:60-63 | DOMAIN\name has the key of name, whatever both are |
| Entities.PrincipalFormCollapses | corenestDashboard/entities.py:64-66 | name@domain has the key of name |
| Entities.UserKeyIsStable | corenestDashboard/entities.py:60-71 | a user key is its own key |
| Entities.QualifiedNameCollapses | corenestDashboard/entities.py:74-84 | a qualified host name has the key of its first label unless the whole reads as an IPv4 address |
| Entities.HostKeyIsStableIff | corenestDashboard/entities.py:74-84 | a host key is its own key iff no whitespace stands before the first dot, or nothing was cut |
| Entities.HostKeySettles | corenestDashboard/entities.py:74-79 | two normalisations always suffice |
| Entities.AddressKeyIsStable | corenestDashboard/entities.py:55-57 | an address key is its own key |
| Entities.MachineAccountsAreSkipped | corenestDashboard/entities.py:60-71 | machine accounts have no key, in each of the three forms of a name |
| Entities.NoiseIsSkipped | corenestDashboard/entities.py:38-71 | nor have the service accounts and placeholders, in any case |
| Entities.OtherNamesAreKept | corenestDashboard/entities.py:60-71 | every other plain name has its lower-case form as its key |
| Entities.LooksLikeIpIff | corenestDashboard/entities.py:82-84 | what reads as an address is four groups of digits between three dots |
| Text.LetterKeepsItsPlace | corenestDashboard/entities.py:67 | lower-casing a letter keeps its place in the alphabet |
| Entities.FieldValue | corenestDashboard/entities.py:87-97 | the first alias, in preference order, that yields a key, or none does |
| Aggregation.MergedEntity | corenestDashboard/correlations.py:402-412 | merging buckets treats entities independently: count, earliest and latest are those of the entity's buckets, in any order |
| Aggregation.CountAgrees | corenestDashboard/correlations.py:393-410 | the merged count is the number of namings of the entity over the answered fields |
| Aggregation.CountsEachDocumentOnceIff | corenestDashboard/correlations.py:393-410 | that is the number of documents iff none names the entity in two fields |
| Aggregation.TimesAgreeIff | corenestDashboard/correlations.py:411-412 | the merged times are the true extremes iff those are not zero |
| Aggregation.MergeAgrees | corenestDashboard/correlations.py:383-419 | the merged map against the direct count, entity by entity, whatever the bucket order |
| Aggregation.BucketEntity | corenestDashboard/correlations.py:383-419 | the nested loops compute that map; a field whose search fails is skipped |
| CompromisedIdentity.Survey | corenestDashboard/correlations.py:451-466 | the inner loop finds exactly the domains that name the user, and the true first and last times |
| CompromisedIdentity.Sweep | corenestDashboard/correlations.py:449-467 | the outer loop reports exactly the users seen in two domains, in any set order |
| CompromisedIdentity.DetectCompromisedIdentity | corenestDashboard/correlations.py:426-479 | a user is reported iff documents of at least two domains name it, critical iff all three do |
| CompromisedIdentity.ThreeDomains | corenestDashboard/correlations.py:461-467 | the number of domains reported is the number whose documents name the user |
| Fnmatch.PrefixPattern | corenestDashboard/silent_sources.py:169-183 | a plain prefix and a star match exactly the names that begin with the prefix |
| Fnmatch.QuestionIsOne | corenestDashboard/silent_sources.py:182-183 | a question mark stands for one character: the text can be cut so that what is before and behind matches the rest |
| Fnmatch.StarIsAny | corenestDashboard/silent_sources.py:182-183 | a star stands for any number of characters, likewise |
| Fnmatch.PlainMembers | corenestDashboard/silent_sources.py:182-183 | a character class without hyphen admits exactly its members |
| Fnmatch.ClassPattern | corenestDashboard/silent_sources.py:182-183 | a class of plain members is one character of them, negated one that is none of them |
| Fnmatch.RangePattern | corenestDashboard/silent_sources.py:182-183 | a hyphen admits what lies between its ends, nothing if they stand the wrong way round |
| Fnmatch.LateNegation | corenestDashboard/silent_sources.py:182-183 | an exclamation mark that comes to stand in front because a backward range was taken out negates the class |
| SilentSources.Best | corenestDashboard/silent_sources.py:186-207 | the applicable threshold of greatest specificity, the newest on ties, or none applies |
| SilentSources.BestIsUnique | corenestDashboard/silent_sources.py:186-207 | there is only one such threshold |
| SilentSources.MostSpecificWins | corenestDashboard/silent_sources.py:186-207 | an exact name wins over any pattern, any pattern over the lone star, and of two alike the newer |
| SilentSources.OneThresholdIff | corenestDashboard/silent_sources.py:186-207 | a threshold sets the limit iff it is enabled, for this kind of source or any, and its pattern matches; otherwise there are fifteen minutes |
| SilentSources.PlainPatternIsTheName | corenestDashboard/silent_sources.py:169-183 | a pattern without a star is the whole name in any case, the lone star any name |
| SilentSources.SilentIff | corenestDashboard/silent_sources.py:237-246 | a source once heard is silent iff at least the limit in minutes has passed since, one never heard for any limit up to 10^9 |
| SilentSources.ObserveWrites | corenestDashboard/silent_sources.py:245-284 | what an observation writes: last heard, whole minutes of silence, the limit in force and no mark for a new incident, the time of recovery, and no other row |
| SilentSources.ResolveThreshold | corenestDashboard/silent_sources.py:186-207 | the newest-first loop with strict comparison finds it, or falls back to 15 minutes |
| SilentSources.OpenIffSilent | corenestDashboard/silent_sources.py:237-284 | after an observation its source is open iff the gap reaches the limit; other sources are untouched |
| SilentSources.RunKeeps | corenestDashboard/silent_sources.py:226-284 | in every sequential run: one open incident a source, its incidents one after another in time, none announced twice, marked iff announced |
| SilentSources.LastCheckDecides | corenestDashboard/app.py:4799-4806 | after the job's turn the source is open iff silent, and then announced |
| OverlappingChecks.WriteCounts | corenestDashboard/silent_sources.py:249-284 | a check that reads, lets others act and writes: one more open incident iff the source is silent and none was open at the read; one less iff it is healthy and the one found is still open |
| OverlappingChecks.TwoOpenIff | corenestDashboard/silent_sources.py:226-284 | however checks overlap no source ever has two open incidents iff no write for a silent source finds one that was not open at its read |
| OverlappingChecks.TwoChecksOpenTwo | corenestDashboard/app.py:4799-4806 | two checks of one silent source that both read before either writes leave two |
| OverlappingNotices.AnnouncedOnceIff | corenestDashboard/app.py:4802-4807 | however checks overlap, once all announcements are made none was made twice iff no write returned an incident unmarked that another check had been handed and not yet marked |
| OverlappingNotices.OneIncidentTwice | corenestDashboard/app.py:4802-4807 | a check that reads and writes between another's write and its mark announces the incident a second time |
| SilentSources.SilentMonitor.RecordObservation | corenestDashboard/silent_sources.py:237-284 | the branches are the observation step, and the open row is returned iff silent |
| SilentSources.SilentMonitor.CheckSource | corenestDashboard/app.py:4802-4806 | one turn of the loop is the check step |
| SilentSources.SilentMonitor.CheckJob | corenestDashboard/app.py:4799-4806 | the job's loop is the run of its observations |
| Glob.PlainContains | corenestDashboard/log_filters.py:200-201 | a plain value between stars matches exactly the texts containing it |
| Glob.WrappedMeansContainsIff | corenestDashboard/log_filters.py:200-201 | that holds of every text iff the value has no wildcard character |
| Glob.MatchesOfSum | corenestDashboard/log_filters.py:200-201 | two patterns in sequence match a text iff it can be cut so that each matches its piece |
| Glob.TokenMatches | corenestDashboard/log_filters.py:200-201 | what one token matches: star, question mark, letter and class |
| Glob.QuotedMatches | corenestDashboard/log_filters.py:200-201 | a value with its special characters escaped matches itself only |
| Query.NoneCountsIff | corenestDashboard/log_filters.py:225-240 | no clause of a must_not list matches iff none is counted |
| LogFilters.EqualsHitsIff | corenestDashboard/log_filters.py:190-199 | what an equals rule excludes, numerals in plain spelling included |
| LogFilters.EqualsExcludesItsTextIff | corenestDashboard/log_filters.py:190-199 | it excludes the very text it names iff that is no numeral or its plain spelling |
| LogFilters.EqualsExcludesNumberIff | corenestDashboard/log_filters.py:190-199 | an equals rule excludes a stored number iff its value reads as that number to Python's int, in whatever spelling |
| Decimal.DigitGroupsIff | corenestDashboard/log_filters.py:190-199 | what Python's int accepts behind the sign: digits, and single underscores between digits |
| LogFilters.ContainsMeansSubstringIff | corenestDashboard/log_filters.py:200-201 | a contains rule is a substring test on every document iff its value is plain |
| LogFilters.ListRoundTrip | corenestDashboard/log_filters.py:202-206 | a comma-joined list of clean items reads back as those items |
| LogFilters.InHitsIff | corenestDashboard/log_filters.py:202-206 | an in rule excludes exactly the documents whose field holds one of the listed items, stripped |
| LogFilters.JoinedInHitsIff | corenestDashboard/log_filters.py:202-206 | so a rule joined from clean items excludes a document iff its field holds one of them |
| LogFilters.RegexHitsIff | corenestDashboard/log_filters.py:207-211 | a regex rule excludes the documents with a text the engine's matcher accepts, an unknown operator none |
| LogFilters.ValidRulesHaveClauses | corenestDashboard/log_filters.py:183-211 | the valid operators are those a clause is made for; a valid rule has one unless it lists nothing but blanks |
| LogFilters.ScopesDivide | corenestDashboard/log_filters.py:88-100 | event searches see the enabled rules for events and for both, alert searches likewise |
| LogFilters.UpdateKeepsTheRest | corenestDashboard/log_filters.py:145-167 | an update takes every given value, keeps every other, and is the same done twice |
| LogFilters.SpliceExcludes | corenestDashboard/log_filters.py:225-240 | for no query, a non-bool query or a bool query: matches after iff it matched before and no excluded clause matches |
| LogFilters.SpliceMeaning | corenestDashboard/log_filters.py:214-240 | a document matches after apply_to_body iff it matched before and no enabled rule in scope hits it; fails iff must_not is one object and there is something to add |
| LogFilters.SpliceTwice | corenestDashboard/log_filters.py:225-240 | a second application never fails and means the same |
| LogFilters.QueryBody.ApplyToBody | corenestDashboard/log_filters.py:225-240 | the in-place mutation is the splice; a TypeError leaves the body alone |
| LogFilters.ListIsNewestFirst | corenestDashboard/log_filters.py:88-100 | rules are listed by descending id |
| LogFilters.ImportKeepsSound | corenestDashboard/log_filters.py:248-279 | importing any list keeps ids ascending and every row valid |
| LogFilters.ImportTakesIff | corenestDashboard/log_filters.py:110-120 | an import refuses a rule with a blank name or field, no value, or a scope or operator of its own, and takes any other as it is, with the next id, new times, no hits and the importer as author |
| LogFilters.RestoreReversesRules | corenestDashboard/log_filters.py:243-279 | export then import with replacement keeps the multiset of rules, order reversed |
| LogFilters.RestoreKeepsMeaning | corenestDashboard/log_filters.py:214-279 | and every search of every scope excludes the same documents afterwards |
| LogFilters.FilterStore.ListRules | corenestDashboard/log_filters.py:88-100 | the listing by scope and enabled flag |
| LogFilters.FilterStore.BuildExcludeList | corenestDashboard/log_filters.py:214-222 | the loop yields the clauses of the enabled rules in scope, newest first |
| LogFilters.FilterStore.Create | corenestDashboard/log_filters.py:122-142 | appends the stripped rule, or refuses invalid values |
| LogFilters.FilterStore.Update | corenestDashboard/log_filters.py:145-167 | replaces one row by the merged and validated one, or nothing |
| LogFilters.FilterStore.Toggle | corenestDashboard/log_filters.py:176-180 | flips the flag of one row and never fails |
| LogFilters.FilterStore.Delete | corenestDashboard/log_filters.py:170-173 | removes one row |
| LogFilters.FilterStore.ImportAll | corenestDashboard/log_filters.py:248-279 | the loop appends the valid rules and counts them |
| LogFilters.FilterStore.BackupAndRestore | corenestDashboard/log_filters.py:243-279 | the round trip on the table itself |
| QueryTimestamps.MillisecondsKeptIff | corenestDashboard/watchtower_client.py:161-167 | a number of milliseconds reads as itself iff it is at least 10^12, or zero |
| QueryTimestamps.SecondsBecomeMilliseconds | corenestDashboard/watchtower_client.py:166-167 | a number of seconds below 10^12 becomes that instant in milliseconds |
| QueryTimestamps.FractionsAreCutOff | corenestDashboard/watchtower_client.py:166-167 | a fraction counts down to the millisecond, what is left over is cut off towards zero |
| QueryTimestamps.SecondsKeptIff | corenestDashboard/watchtower_client.py:161-172 | to an engine that reads a numeral of seconds as that instant the bound is kept iff it is below 10^12 |
| QueryTimestamps.DateKeptIff | corenestDashboard/watchtower_client.py:173-182 | a date bound is kept iff the engine reads it as the instant the parser does, text no parser knows iff it is no bound to the engine |
| QueryTimestamps.FixedIff | corenestDashboard/watchtower_client.py:971-993 | rewriting changes a query iff a string stands in a timestamp range; all else, at any depth, is identical |
| QueryTimestamps.RewriteIsIdempotent | corenestDashboard/watchtower_client.py:971-993 | rewriting twice is rewriting once, on every JSON value |
| QueryTimestamps.QueryKeepsMeaning | corenestDashboard/watchtower_client.py:971-993 | if the parsers and the engine read every timestamp bound alike, the rewritten query matches the same documents, through bool, constant_score, function_score, boosting, dis_max and nested at any depth |
| QueryTimestamps.AskingReadsByValue | corenestDashboard/watchtower_client.py:971-993 | engines whose remaining clauses ask queries of their own, date arithmetic included, meet what that assumes of them |
| QueryMeanings.ReadingsAgree | corenestDashboard/watchtower_client.py:971-993 | every query of the filters' language, bool clauses at any depth, written as JSON matches the same documents under the reading the rewriting is proved for as under the one the splice is proved for |
| QueryMeanings.WrappersAsk | corenestDashboard/watchtower_client.py:971-993 | constant_score, function_score and boosting match what their query does, dis_max what any of its queries does, nested what its query does of some document under the path |
| QueryMeanings.LoneIsListOfOne | corenestDashboard/watchtower_client.py:971-993 | in a bool a lone object counts as a list of one, and keys other than the four decide nothing |
| QueryTimestamps.NumeralKeptIff | corenestDashboard/watchtower_client.py:161-172 | to an engine that reads numerals as milliseconds, a numeral bound is kept iff it is at least 10^12, or zero |
| QueryTimestamps.OneBoundKeptIff | corenestDashboard/watchtower_client.py:983-988 | a range with one bound, gte, gt, lte or lt, keeps its match set iff the parsers and the engine read it alike |
| ReferenceSets.SplitValues | corenestDashboard/reference_sets.py:119-134 | the loop keeps each stripped value once, in the order first seen |
| ReferenceSets.FirstSeenHolds | corenestDashboard/reference_sets.py:119-134 | the result is exactly the non-empty stripped parts, without repetition |
| ReferenceSets.ImportRestores | corenestDashboard/reference_sets.py:301-340 | importing restorable sets into empty tables restores each of them |
| ReferenceSets.ImportRefusesIff | corenestDashboard/reference_sets.py:108-116 | an import adds a set unless its stripped name is taken, empty, too long or of other characters, its type unknown, or it is custom and names no field |
| ReferenceSets.ImportedValues | corenestDashboard/reference_sets.py:325-337 | an imported set holds exactly the non-blank values given, stripped |
| ReferenceSets.BackupRoundTrip | corenestDashboard/reference_sets.py:291-340 | export, clear, import keeps every set's type, field, description, author, and exact values and notes, in whatever order the export listed them |
| ReferenceSets.DeleteKeepsSound | corenestDashboard/reference_sets.py:205-208 | a cascading delete leaves no entry without a set |
| ReferenceSets.InsertGrows | corenestDashboard/reference_sets.py:213-235 | a bulk insert adds one row for each value not yet held and keeps the old rows |
| ReferenceSets.ImportSetKeepsSound | corenestDashboard/reference_sets.py:301-340 | importing any set, malformed ones included, keeps names, values and keys unique and valid |
| ReferenceSets.ReferenceStore.AddEntries | corenestDashboard/reference_sets.py:213-235 | the counts returned are the rows gained and the values skipped |
| ReferenceSets.ReferenceStore.DeleteSet | corenestDashboard/reference_sets.py:205-208 | the set and its entries go and nothing else does |
| ReferenceSets.ReferenceStore.Restore | corenestDashboard/reference_sets.py:301-340 | the nested loops are the import, with its count |
| RateLimiter.RunKeepsSound | corenestDashboard/app.py:278-295 | tokens stay within 0 and the burst |
| RateLimiter.WindowBound | corenestDashboard/app.py:278-295 | in any window of length T an address gets from one process at most BURST + RPS * T requests, one more if the window holds its first |
| RateLimiter.AdmittedIff | corenestDashboard/app.py:278-295 | over any run: a request is admitted iff its address asks for the first time, or the burst is at least one and no window that begins at an earlier request of its address has used up its allowance |
| RateLimiter.NewAddressBurst | corenestDashboard/app.py:282-285 | the bound is met: exactly BURST + 1 simultaneous first requests pass |
| RateLimiter.SpacedIsNeverRefused | corenestDashboard/app.py:286-295 | an address that keeps 1/RPS between requests is never refused if the burst is at least one |
| RateLimiter.Limiter.RateLimitCheck | corenestDashboard/app.py:278-295 | the branches are the bucket step |
| LoginLockout.FailuresInAWindow | corenestDashboard/app.py:180-196 | in one process, with at most k requests between lock check and outcome at once, any 5 + k failed guesses in a row since the last success span at least 900 seconds |
| LoginLockout.AtMostFiveInSequence | corenestDashboard/app.py:499-514 | in one process, one request at a time: any six do |
| LoginLockout.BoundIsReached | corenestDashboard/app.py:499-514 | 4 + k failed guesses at one moment do get through one process |
| LoginLockout.FailuresOverWorkers | corenestDashboard/app.py:174-196 | with w worker processes, each with its own attempts table, and at most k requests at once between lock check and outcome, added up over them, no 900 seconds hold more than 4 w + k failed guesses since each table's last success |
| LoginLockout.OverWorkersIsReached | corenestDashboard/app.py:499-514 | and that many do get through at one moment |
| LoginLockout.LockedIff | corenestDashboard/app.py:180-185 | pruning loses nothing: locked iff five failures since the last success lie in the window |
| LoginLockout.SuccessClears | corenestDashboard/app.py:193-196 | after a success no failure counts, and the key is not locked before another five |
| AlertCursor.NothingTwice | corenestDashboard/notifier.py:200-226 | over any polls of any indexes no alert is sent twice and the cursor never goes back |
| AlertCursor.PollsTakePages | corenestDashboard/notifier.py:200-226 | with distinct times and no alert arriving, n polls send exactly the first pages, in time order |
| AlertCursor.AllSentIff | corenestDashboard/notifier.py:200-226 | then all are sent after n polls iff there are at most 20 n |
| AlertCursor.ArrivalIsSentIff | corenestDashboard/notifier.py:200-226 | an alert that arrives between any two polls, late or not, has been sent iff the cursor is past its time, was not when it arrived, and no poll skipped it |
| AlertCursor.PollSkipsIff | corenestDashboard/notifier.py:209-212 | a poll skips an alert iff its page is full and the next pending alert has the last one's time |
| AlertCursor.SkippedForGood | corenestDashboard/notifier.py:200-226 | a skipped alert is never sent by any later poll |
| AlertCursor.AlertWatcher.Check | corenestDashboard/notifier.py:200-226 | one check is the poll step |
| Throttle.PassesAreApart | corenestDashboard/notifier.py:37-47 | two notices of one key that pass are at least the window apart |
| Throttle.DeliveredIff | corenestDashboard/notifier.py:37-47 | over any run of calls: one is delivered iff its level is at least 8, the clock has reached the window, and every earlier call of its key that passed is a window old |
| Throttle.LastIsLastPass | corenestDashboard/notifier.py:37-47 | the table holds for each key the time of its last call that passed |
| Throttle.SlotIsTaken | corenestDashboard/notifier.py:37-58 | a notice that passed, delivered or too low to be, keeps every later one of its key from delivery for the window |
| Throttle.SameSlotIff | corenestDashboard/notifier.py:33-34 | notices share a slot iff rule and agent print alike, as long as no rule id has a colon |
| Throttle.ColonsCollide | corenestDashboard/notifier.py:33-34 | with one, notices of different rules can share a slot |
| Throttle.SecondIncidentIsSwallowed | corenestDashboard/app.py:4938-4957 | so of two incident notices of one rule within the window the second is not delivered |
| CommandStore.RunKeepsSound | WatchNode/internal/manager/store.go:35-96 | in every interleaving agents and queues have the same keys and no queue exceeds 128 |
| CommandStore.FirstSeenStays | WatchNode/internal/manager/store.go:35-74 | an agent once seen stays registered, with its first-seen time |
| CommandStore.LastSeenIsLastHeard | WatchNode/internal/manager/store.go:35-74 | in every interleaving an agent is known iff it registered or sent a heartbeat, and was last seen at the last of these |
| CommandStore.SignsOfLife | WatchNode/internal/manager/store.go:35-74 | what a registration, a heartbeat and a first batch write to the agent's record, and that nothing else touches it |
| CommandStore.NoCommandIsLost | WatchNode/internal/manager/server.go:126-179 | the accepted commands are those the senders received, in order, then those still queued, however many streams an agent has |
| CommandStore.RefusedIff | WatchNode/internal/manager/store.go:76-89 | a command is refused iff the agent is unknown or 128 accepted ones still wait |
| CommandStore.StoppedSenderReceivesNothing | WatchNode/internal/manager/server.go:156-170 | a sender that noticed the end of its stream or received nil receives nothing more |
| CommandStore.SenderStopsIff | WatchNode/internal/manager/server.go:156-170 | a sender stops iff it receives nil or notices the end of its stream, and runs from its stream's first batch |
| CommandStore.SentDroppedOrQueued | WatchNode/internal/manager/server.go:156-170 | every accepted command went to an open stream, was taken by a closed one, or waits |
| CommandStore.ClosedStreamDropsAll | WatchNode/internal/manager/server.go:126-170 | until it notices, the sender of a closed stream can take everything that waits |
| CommandStore.Store.UpsertAgentFromRegistration | WatchNode/internal/manager/store.go:35-55 | is the registration step |
| CommandStore.Store.TouchHeartbeat | WatchNode/internal/manager/store.go:57-74 | is the heartbeat step |
| CommandStore.Store.EnqueueCommand | WatchNode/internal/manager/store.go:76-89 | is the enqueue step and reports acceptance |
| CommandStore.Store.SenderReceives | WatchNode/internal/manager/server.go:156-170 | is one receive of a sender |

## Left out

- Real I/O: gRPC, TLS, HTTP, SMTP, Slack, Kafka and sockets are send and receive steps; SQLite tables are sequences with the constraints the code relies on; the search engine is a small evaluator with an ideal, untruncated terms aggregation.
- Disk faults: torn or short writes, half-written checkpoint numbers and failing file calls are assumed away, and so are records over the scanner's 4 MB limit; in QueueAsWritten each read of the log ends at a line boundary, which holds while what is unread fits the scanner's 4 MB buffer, and a copy racing a write takes it whole or not at all.
- QueueRefinement.RefineStep: compaction in it is the intended protocol, one atomic step that moves the reader's cursor; what the code does instead is QueueAsWritten.
- QueueRefinement.RefineRun: its runs use that step, and so do the runs of CrashSafety, Pipeline and PipelineLog.
- QueueRefinement.RefineCompact: states what the intended step keeps, not what the code's sections keep.
- DiskQueues.DiskQueue.TryCompact: nothing comes between its sections; what happens when something does is QueueAsWritten.
- DiskQueues.DiskQueue.Tick: moves the reader's cursor, which the code never does; it is the intended protocol.
- Text: strings are taken to hold valid UTF-8 in the log, and ASCII in the dashboard modules; Python's strip also removes U+001C to U+001F, which the model does not.
- JSON: Go's case-insensitive and duplicate object keys, and numerals out of range in lines the agent did not write, are not modelled; field values that are structs are maps here, so their key order is not compared.
- WalCodec.PathsAgreeIff: how json.Marshal prints a double is a parameter; the two orders in which a struct and a map print their members are not compared, and negative zero is zero.
- Disk queue: Close racing a compaction in progress is not modelled; the 80% test is exact arithmetic rather than float64.
- ActiveResponse: failing iptables calls, IPv6 and the Windows branches; command validation, CIDR safelists, timeouts, process and account commands, and all of handleConfigUpdate but the TTL. A safelist is a set of addresses.
- Incidents.StepKeepsSound: is about one process, in which a record is one step; for worker processes that share the table SharedIncidents.TwoOpenIff says when two rows of a pair are open.
- Incidents.RunKeepsSound: likewise one process; SharedIncidents.OneProcessIsAtomic reduces its two statements to that step.
- Incidents.RowsOnlySucceed: likewise one process; SharedIncidents.ResolvedIsFrozenIff is the case of several.
- Incidents.RecordRaisesIff: likewise one process; SharedIncidents.RecordAcrossProcesses is the case of several.
- Incidents: SQLite's busy timeout, after which a write raises, is not modelled; the entity_type, mitre and contributing columns are folded into one details value.
- LostIncidents.ReturnsAllIff: is about one process (SharedIncidents.NothingLostIff is about several) and about jobs in which nobody resolves an incident between two visits of one entity by one detector; only detect_multi_location_logon can visit an entity twice, when two raw names normalise alike. Analysts act between visits otherwise.
- CompromisedIdentity.DetectCompromisedIdentity: its findings are those it would record; recording them, and a unique-key error that cuts the loop short, are in IncidentJobs and LostIncidents. Evidence texts are not modelled; the other three detectors use the same table and merge and are left out, with geo lookups and the sub-aggregations.
- Entities: the TTL cache and the inventory lookups.
- SilentSources: creating and editing thresholds (each observation carries the thresholds then in force); the clock is assumed not to go back.
- LogFilters: regular expressions and query kinds the filters never build are parameters of the meaning; percentages in minimum_should_match are not modelled.
- QueryTimestamps: float() and strptime are parameters; infinities, which make int() raise, are excluded; scores are not modelled, so a function_score with min_score is the engine's, and string options of a range, which the rewriting changes too, count as not kept.
- ReferenceSets: set creation and renaming, the case-insensitive name lookup of as_values, and entry authors and times.
- RateLimiter, Throttle and AlertCursor are about one worker process each, of the four that keep tables and cursors of their own; with LoginLockout they assume clocks that do not go back.
- LoginLockout.FailuresInAWindow: is about one process's table, and so is AtMostFiveInSequence; FailuresOverWorkers adds the tables up.
- LogFilters and ReferenceSets: an operation's statements are one step; other processes writing between them are not modelled.
- Pipeline: closing the channels at shutdown, the select's choice while stopping, and enrichPoint, which only adds tags.
- Password and API-key hashing, sessions, Flask routes, reports, inventory and compliance queries, geo, AI summaries, cloud connectors and ticketing: I/O or thin wrappers.
