# Verified model of the EdgeFirst web server's recording, configuration and topic logic

The EdgeFirst web server lists MCAP recordings, edits the services' environment
files and reports which topics are alive. This project models the parts of it whose
behaviour is hard to see from the code, in Dafny, and proves what they promise.
`dafny verify dfyconfig.toml` checks all of it.

## What is modelled

**The recording timeline** (`src/mcap_timeline.rs`). A recording is read as log-time
spans and clock-step records in file order. `Timeline` gives each operation of the
accumulator as a function on values; `Accumulator.TimelineAccumulator` is the object
itself, with the same fields, whose methods are proved to compute those functions.
The object also keeps the history of spans pushed. `Conservation` defines, from that
history alone, what a recording lasts: the hull of each surviving segment with every
segment joined into it moved into its clock. It proves that the running totals agree
with this definition in every reachable state, and `Saturation` that nothing taken back
from them was not there. `ChannelSpan` does the same for channels. `TopicSpans`,
`MonotoneRecording`, `StrayExcursion` and `Leak` hold the properties that follow.
`SpanPieces` says from the spans alone what any of them are measured as, and
`RecordedJumps` which records are about which jumps.

**Feeding a file to the timeline** (`src/mcap.rs`). `Feed` and `FeedLoop` model the
loop over a file's entries with its look-ahead to the next record. `MessageIndexes`
models what is read from MessageIndex records (MCAP specification, section "Message
Index (op=0x07)"). `Sections` describes recordings interrupted by clock steps, `Phases`
how the timeline stands while they are fed; `RunHulls`, `StepInvariance` and
`FeedTopics` prove what a whole file is reported as, `FeedPieces` what one without records
is, and `MissedLeaks` holds files whose leaked messages go unnoticed.

**Reading a file** (`src/mcap.rs`). `Records` walks the bytes. `Scan` and
`ScanLayout` are the linear scan with its skipped chunks, and `ScannedEntries` what its
entries tell of a file; `IndexPath` is the path
through the summary, and the proof that both feed the timeline alike; `PathsReport`
adds that both list the same topics. `OpenedChunks`
says from a file's groups of records alone which chunks the scan opens, and
`LazyChannels` compares the lazy scan with opening every chunk. `Scanner` is the background scanner
as a protocol with explicit lock steps for any number of threads, and `ScannerProgress`
what it is sure to do.

**The environment-file editor** (`src/envfile.rs`). `Text` and `EnvSyntax` are lines,
quoting and definitions, `EnvValues` what a value is read as; `EnvPlan` is what an edit
writes, as functions on lines; `EnvStable`, `EnvIdempotent` and `EnvReport` hold stability, idempotence and exact
reporting; `EnvValidate`, `EnvEdit` and `EnvEmit` are the loops of the program, proved to
compute those functions. `EnvFreshKeys`, `EnvRoundTrip` and `EnvUpdates` are about whole
updates: every valid one, those that submit what the parser returned, and what is refused
and read back. Keys are matched on ASCII letters.

**The sampled topics** (`src/topics.rs`). `TopicRequests` is the bounded set over whole
runs of requests and expiries, `TopicSets` the objects updated in place, `Schedule` the
sampling task as a timed state machine.

Times, sizes and offsets are mathematical integers; clamping and saturation are
written out (`Spans.Clamp`, `Spans.SaturatingAdd`, `Spans.SaturatingSub`), and
properties that clamping would break carry the range they need as a condition on the
run (`RunFits`, `CloseFits`).

## What was found

- A file can lose a topic when it is cut short, and also when it is complete but has no
  summary: a channel declared only in a chunk that stays compressed, and counted without
  the help of an index, is never named. `LazyChannels.LostTopic` is such a file.
  `LazyChannels.CutShortIsExactUnless` and `LazyChannels.CompleteIsExactUnless` say exactly
  when it happens, in terms of the file's groups of records.
- Messages leaked ahead of a record are told apart in two ways: they are split off in the
  entry just before the record, or, when the jump to the first of them exceeds the gap
  threshold, they open a segment that the record then confirms. Only a leak after a
  smaller jump depends on the split, and that can fail: a chunk of other records comes in
  between (`MissedLeaks.BareChunkHidesLeak`), the leak takes up two entries
  (`MissedLeaks.LeakOverTwoEntries`), or the header of the next chunk, which holds a leak
  of its own, speaks against it (`MissedLeaks.HeaderMisleads`).
  `StepInvariance.StepSizesDoNotMatter` gives the exact condition for the pieces measured
  to be the runs, and the exact measurement that then follows;
  `StepInvariance.WhatIsReported` says what every other file is reported as, with the
  leak measured as part of its run. That can still come to the right duration
  (`MissedLeaks.CoincidesAnyway`).
- A stretch of data that goes back in log time, pauses and goes on near the end of the
  stretch before it is taken for one that comes back, and its beginning is dropped
  (`SpanPieces.ShortStartComesBack`). `SpanPieces.PiecesAreMeasured` says exactly when
  nothing is dropped.
- A chunk that is trimmed before a record shortens the recording but not its topics, so a
  topic can outlast the recording (`FeedTopics.TrimmedTopicOutlasts`).
- Saving twice does not always settle an environment file: when the file has no CRLF and
  ends in a lone carriage return, an update that adds lines after it makes it a CRLF file,
  which the second save rewrites (`EnvFreshKeys.LostReturn`). No other file has this fault
  (`EnvFreshKeys.EveryEditSettles`); carriage returns within lines do no harm.
- A status request takes its time before it gets the lock, so it can come after requests
  with later times, and then what it adds can be evicted in favour of theirs
  (`TopicRequests.LateRequestsWin`).

## Model

| member | source | states |
|---|---|---|
| Conservation.DurationConservation | src/mcap_timeline.rs:181-374 | After any run of spans and records, in range, the reported duration is the sum over surviving segments of the hull of everything pushed to segments joined into them, each moved along its joins, plus the pauses counted with no segment to join; dropped segments contribute nothing. |
| Conservation.RunKeeps | src/mcap_timeline.rs:181-374 | Every reachable state satisfies the invariant that ties the running total, the open segment and the re-openable closed one to the history of spans. |
| Saturation.NeverSaturates | src/mcap_timeline.rs:181-350 | In every run in range no `saturating_sub` of the next call saturates: not the duration and the step taken back on re-opening, nor the duration taken back by a join across a record or by settling a pause, be it within a push after the segment was extended. |
| Saturation.FinishNeverSaturates | src/mcap_timeline.rs:265-350 | Nor does the one in finishing. |
| Saturation.ReachableCovers | src/mcap_timeline.rs:287-307 | In every reachable state, in range or not, the jumps that can still be taken back are among the steps counted. |
| Conservation.HomeSurvives | src/mcap_timeline.rs:460-471 | A segment that was not abandoned ends in one that is neither joined away nor abandoned. |
| Conservation.ReachableForest | src/mcap_timeline.rs:300-374 | In every reachable state each segment is the source of at most one join, a join target becomes a source only later in the list, and abandoned segments occur in no join. |
| Conservation.HomeIsRoot | src/mcap_timeline.rs:460-471 | Following the joins from any segment ends in a segment that is not joined away. |
| Conservation.HullJoin | src/mcap_timeline.rs:315-350 | Joining a segment moves its whole hull into the target's clock and changes no other segment's. |
| Conservation.HullAbandon | src/mcap_timeline.rs:300-304 | Abandoning a segment drops exactly its own data. |
| Accumulator.TimelineAccumulator.constructor | src/mcap_timeline.rs:172-179 | A new accumulator has no history and counts nothing, with or without authoritative records. |
| Accumulator.TimelineAccumulator.Push | src/mcap_timeline.rs:181-210 | A pushed span leaves exactly the specified next state, the invariant is kept, and the span is in the history under the segment open afterwards. What the specified states come to is `SpanPieces.PiecesAreMeasured`. |
| Accumulator.TimelineAccumulator.ClockStep | src/mcap_timeline.rs:224-226 | A record joins, confirms or opens as specified, without changing the history. |
| Accumulator.TimelineAccumulator.ClockStepAfterUnresolved | src/mcap_timeline.rs:232-234 | As for a record, with the last span trimmed when it opens a segment. |
| Accumulator.TimelineAccumulator.RecordStep | src/mcap_timeline.rs:236-253 | The new state, the history and the pauses counted are those specified for the three cases of a record, which `RecordedJumps.RecordClosesUnlessAbout` and `RecordedJumps.PauseBesideStep` tell apart. |
| Accumulator.TimelineAccumulator.LastEnd | src/mcap_timeline.rs:256-258 | In range, where there is an end it is that of the span pushed last of all, and where there is none nothing surviving lies in the open segment. |
| Accumulator.TimelineAccumulator.ReopenBeforeExcursion | src/mcap_timeline.rs:287-307 | Re-opens the previous segment exactly when the open one is a short excursion that the next span returns from, and otherwise changes nothing. |
| Accumulator.TimelineAccumulator.JoinAcrossStep | src/mcap_timeline.rs:315-328 | Joins the previous segment moved by the step, or counts the pause when there is none. |
| Accumulator.TimelineAccumulator.SettlePause | src/mcap_timeline.rs:331-350 | A pending pause is settled by joining the open segment into the previous one. |
| Accumulator.TimelineAccumulator.Close | src/mcap_timeline.rs:355-374 | Closing adds the merged extent to the total and keeps the segment for re-opening. |
| Accumulator.TimelineAccumulator.Finish | src/mcap_timeline.rs:265-267 | The report is the specified one and, while every call stayed in range, what the history of spans says. |
| StrayExcursion.ExcursionNeutral | src/mcap_timeline.rs:181-210 | From any reachable state whose open segment is longer than the threshold, a short run of spans after a jump followed by a span that returns gives the same duration, steps and surviving segments as never pushing the run, for every continuation by pushes and records, if and only if no record in it finds a pause before the segment that was open all along. |
| StrayExcursion.PushesFindNothing | src/mcap_timeline.rs:181-253 | In particular for every continuation by spans alone and, without authoritative records, for every continuation. |
| StrayExcursion.ReachableShape | src/mcap_timeline.rs:181-210 | A pause is pending only while the data after the jump is short and the segment before it can still be re-opened. |
| MonotoneRecording.PausesCount | src/mcap_timeline.rs:287-374 | With authoritative records, in-order spans last from first start to last end with no steps, however long the pauses. |
| MonotoneRecording.LargeJumpsAreSteps | src/mcap_timeline.rs:181-210 | Without them, in-order spans last that long less the jumps above the threshold, with one step per such jump. |
| SpanPieces.PiecesAreMeasured | src/mcap_timeline.rs:181-210 | For any spans in any order: nothing is dropped if and only if no span comes back to where the data was before the latest jump after a short stay elsewhere; and then the report is the lengths of the pieces, which end where log time goes back and, without authoritative records, at every large jump, with one step per jump in that case and none otherwise. |
| SpanPieces.GapIsPieces | src/mcap_timeline.rs:181-210 | The jump then open to a record is the latest one or, once the pause there is settled, the one that the piece began with. |
| SpanPieces.StretchesAddUp | src/mcap_timeline.rs:92-101 | With authoritative records, long stretches of data each of which starts well before the end of the one before last as long as they do together, without a step. |
| SpanPieces.ShortStartComesBack | src/mcap_timeline.rs:287-307 | A concrete recording in which a stretch that goes back and pauses at once is taken for one that comes back, and its beginning is dropped. |
| RecordedJumps.ReachableKinds | src/mcap_timeline.rs:181-210 | In every reachable state the jump open to a record is a large one; it is held for a pause exactly when it goes forward under authoritative records, and counted as a step exactly without them. |
| RecordedJumps.RecordClosesUnlessAbout | src/mcap_timeline.rs:236-253 | A record goes on with the open segment if and only if no more than the threshold of data has come since the jump before it, and the jump is about the step or longer forward in its direction; any other record closes the segment as a step of its own. |
| RecordedJumps.PauseBesideStep | src/mcap_timeline.rs:315-328 | A record that goes on counts what the jump exceeds the step by exactly when that is more than the threshold and records are authoritative: by moving the segment before by the step, or as it is when there is none. |
| RecordedJumps.RecordAboutJump | src/mcap_timeline.rs:149-163 | A recording with one jump and a record about it has one step and lasts as long as its two sides or, with a pause beside the step, from its first log time moved by the step to its last. |
| RecordedJumps.RecordNotAboutJump | src/mcap_timeline.rs:236-253 | With a record that comes too late or does not match, the record is a step besides the jump, and what follows it is measured by itself. |
| RecordedJumps.TrimUndoesLeak | src/mcap_timeline.rs:228-253 | A record after a span that could not be resolved leaves the very state that it would had the span ended earlier by the size of the step. |
| RecordedJumps.ShortNotTrimmed | src/mcap_timeline.rs:355-374 | A span shorter than the step is not trimmed. |
| Leak.LeakSplit | src/mcap_timeline.rs:391-423 | The split, when there is one, is a valid index into the messages. |
| Leak.SplitIsBest | src/mcap_timeline.rs:391-423 | The split is the least-miss candidate pair ending in the trailing window, the latest on ties, and in the step's direction; there is none exactly when vetoed or no pair qualifies. |
| Leak.SplitTold | src/mcap_timeline.rs:377-423 | Told from the messages: the split is at the change within the threshold of the step, and nearer to it than to no change, that is nearest to it, the latest on ties, from which on the messages stay near the last one; there is none exactly when no change is like that or what follows the record is at least as near to the last message moved by the step as to the message. |
| Leak.LeakRecovered | src/mcap_timeline.rs:377-423 | When the points are a pre-step run and a short post-step run, the split is exactly the boundary, or none at all when what follows the record speaks against it. |
| Leak.NoLeakNoSplit | src/mcap_timeline.rs:377-423 | When nothing leaked, nothing is split off, whatever follows the record. |
| ChannelSpan.ChannelSpans.Push | src/mcap_timeline.rs:440-445 | A recorded span extends its segment's and channel's hull and no other. |
| ChannelSpan.ChannelSpans.Canonical | src/mcap_timeline.rs:460-471 | The loop following the joins ends, in the segment that the join history gives, with the summed offset; that segment is not abandoned if the first was not. |
| ChannelSpan.HomeFollows | src/mcap_timeline.rs:460-471 | Following one join from a segment does not change where it ends up or by how much it moves. |
| ChannelSpan.ChannelSpans.JoinSpans | src/mcap_timeline.rs:472-485 | The joined spans are, segment by segment, the hulls of everything recorded for the channel; abandoned segments leave empty extents. |
| ChannelSpan.JoinedIsChannelHull | src/mcap_timeline.rs:455-492 | Joining recorded hulls after moving them is the hull of all spans moved: moving commutes with merging. |
| ChannelSpan.ChannelSpans.SumExtents | src/mcap_timeline.rs:486-491 | A channel's extent is the sum over segments of its joined spans, and the number of those. |
| ChannelSpan.ChannelSpans.FinishMerged | src/mcap_timeline.rs:455-492 | Every channel recorded, and no other, gets the extent its history of spans defines. |
| TopicSpans.TopicsWithinRecording | src/mcap_timeline.rs:272-283 | For messages in any interleaving with records, each channel's summed span is at most the duration and its segments at most the surviving ones. |
| TopicSpans.ExtentWithinRecording | src/mcap_timeline.rs:272-283 | The same for any spans recorded within what was pushed to their segments. |
| FeedTopics.FileTopicsWithinRecording | src/mcap.rs:458-552 | The same for whole files: any entries, chunks read or left compressed, any leaks across records, as long as no chunk is trimmed before a record. |
| FeedTopics.TrimmedTopicOutlasts | src/mcap.rs:521-535 | A concrete file with a trimmed chunk, whose topic is reported to span more than the recording. |
| Feed.FeedCounts | src/mcap.rs:473-535 | Each Step entry is handled exactly once, by look-ahead or by the main loop. |
| Feed.OneStepPerRecord | src/mcap.rs:473-535 | With authoritative records a file is reported with exactly as many clock steps as it has Step entries, whatever else it holds. |
| FeedLoop.PushPointsTo | src/mcap.rs:555-564 | Pushes each message as a point and records it under the segment open after the push. |
| FeedLoop.PushAcrossStepTo | src/mcap.rs:589-601 | Pushes what precedes the split, the record, then the rest. |
| FeedLoop.FeedChunkTo | src/mcap.rs:507-535 | Feeds a chunk as its messages when they are looked up, else unexpanded and held for each of its channels. |
| FeedLoop.FeedEntryTo | src/mcap.rs:473-535 | Handles one entry, and the record after it when that is taken with it. |
| FeedLoop.PushHeld | src/mcap.rs:537-550 | Records, for each segment and channel once, what its held chunks say. |
| FeedLoop.FeedEntries | src/mcap.rs:458-552 | The report and every channel's extent are those of the specified feeding, for any order in which held chunks are visited. |
| FeedPieces.StepFreeFileMeasured | src/mcap.rs:458-552 | A file without clock steps lasts as long as the pieces of its messages and chunks, a chunk counting as its messages when it is too long and they are known, else as its range unless it is empty of both indexes and times. |
| Feed.FirstTold | src/mcap.rs:566-585 | What is taken to come after a record begins where the first entry says that holds messages, an index or an end time, and is unknown when the next record comes first. |
| FeedLoop.FinishWithSpans | src/mcap_timeline.rs:272-283 | The report and the channel extents come from the same finished joins. |
| StepInvariance.StepSizesDoNotMatter | src/mcap.rs:458-601 | For runs of messages apart by records, any of them empty, with messages leaked ahead of the records: the pieces measured are exactly the runs if and only if each leak can be seen in the entry just before its record or starts more than the gap threshold from its run. Then the report is the sum of the runs' lengths, one step per record, and each channel's sum of its extents in the runs, whatever the steps' sizes. |
| StepInvariance.WhatIsReported | src/mcap.rs:458-601 | Every such file is reported to last as long as its pieces together, with one step per record; a leak neither seen nor far is in one piece with its run, as far as it is fed ahead of the record. |
| StepInvariance.SplitRightIff | src/mcap.rs:458-601 | From any point of a file on, every record is fed just ahead of the messages taken after its step if and only if each leak can be seen. |
| StepInvariance.RecordAtLeak | src/mcap.rs:473-535 | For one record: where it is fed is told by the entries alone, never before the leak, and at the leak if and only if that can be seen. |
| StepInvariance.FarInBody | src/mcap.rs:473-535 | A far leak that begins in any earlier entry, read or compressed, is measured as the next run although it is fed ahead of the record. |
| Phases.FarRecord | src/mcap_timeline.rs:143-160 | The record describes the jump to a far leak and leaves what the jump opened as the next run. |
| Sections.SplitAtLeak | src/mcap.rs:589-601 | The messages split off before a record are exactly those leaked if and only if nothing leaked or what follows does not speak against it, and are never more. |
| Sections.UnseenIsAhead | src/mcap.rs:589-601 | A leak that cannot be seen is fed wholly ahead of the record, unless it begins in a chunk taken as a whole whose header ends with an earlier message. |
| Sections.SeenWhenContinued | src/mcap.rs:567-584 | A leak in the entry just before its record can be seen whenever the next run's own messages fill a whole entry before the next leak. |
| MissedLeaks.BareChunkHidesLeak | src/mcap.rs:497-503 | A concrete file in which, after a small jump, a chunk without messages just before the record hides the leak: its runs last no time, the report says as long as the step. |
| MissedLeaks.LeakOverTwoEntries | src/mcap.rs:473-497 | The same for a leak over two entries. |
| MissedLeaks.HeaderMisleads | src/mcap.rs:567-584 | The same for a leak that the header of the next chunk speaks against. |
| MissedLeaks.CoincidesAnyway | src/mcap.rs:497-503 | A concrete file whose leak is not told apart, yet whose duration is right. |
| RunHulls.ExtentOfRuns | src/mcap_timeline.rs:455-492 | When everything recorded is in the runs' segments, a channel's extent is the sum of its extents in the runs. |
| RunHulls.RecordedIsRuns | src/mcap.rs:537-550 | Messages recorded singly and chunks held compressed together give each channel its true hull in each run. |
| MessageIndexes.ChunkMessageTimes | src/mcap.rs:636-658 | The lookup fails when an index cannot be read or there are no entries, else gives all entries in order of offset. |
| MessageIndexes.TimesAreMessages | src/mcap.rs:636-658 | Truthful indexes give back a chunk's messages exactly as they lie in it, without opening it. |
| MessageIndexes.TimesKnownIff | src/mcap.rs:636-658 | A chunk's messages are known if and only if all its index records can be read and one of them holds a message. |
| MessageIndexes.ChannelExtentIn | src/mcap.rs:664-688 | The scan from the front and then from the back gives the least time of the first chunk holding any and the greatest of the last. |
| MessageIndexes.ExtentIsHull | src/mcap.rs:664-688 | When times do not go back from chunk to chunk, that extent is the hull of all the channel's messages. |
| MessageIndexes.ExtentTold | src/mcap.rs:664-688 | Whatever the times, the extent is from the least in the first chunk that holds any to the greatest in the last; unknown exactly when the search from either end meets an index that cannot be read or is another channel's before one that holds a time, and none when all are empty. |
| Records.RecordReadBack | src/mcap.rs:615-621 | A record is read back from where it was written, whatever surrounds it, and a part of one never is. |
| Records.ReadRecords | src/mcap.rs:735-776 | The walk yields the records up to the first that does not fit. |
| Records.WholeIsAll | src/mcap.rs:615-621 | An uncut file is read back in full and in order. |
| Records.OnlyWithMagic | src/mcap.rs:735-776 | A file that does not start with the magic bytes has no records. |
| Records.CutFileKeepsRecords | src/mcap.rs:733-776 | However a file is cut short after its magic bytes, every record wholly there is read at its offset, and nothing else. |
| Scan.ReadLinear | src/mcap.rs:735-786 | The scan of a file's records leaves the specified entries, topics, counts and skipped chunks. |
| Scan.LinearScan.Flush | src/mcap.rs:875-918 | Recording the pending chunk opens it, opens skipped chunks newest first until its channels are known, or leaves it compressed, as specified; what that tells is `ScannedEntries.ScanTells`. |
| ScannedEntries.OpenedChunkTells | src/mcap.rs:879-894 | The entry of an opened chunk lists exactly the chunk's messages, as time and channel, in their order. |
| ScannedEntries.InsideCounted | src/mcap.rs:879-894 | Opening a chunk adds to each channel's count the number of its messages there. |
| ScannedEntries.InsideDeclared | src/mcap.rs:879-926 | Opening a chunk declares each channel as its last declaration there does, and leaves the others alone. |
| ScannedEntries.MarksCounted | src/mcap.rs:861-871 | A chunk's index records count for a channel what all of them for it say together. |
| Scan.LinearScan.Message | src/mcap.rs:851-859 | A message outside chunks is counted and joined to the messages just before it. |
| Scan.LinearScan.MessageIndex | src/mcap.rs:861-871 | An index record after a chunk is noted with its offset and count; without a chunk it is ignored. |
| Scan.LinearScan.OpenChannels | src/mcap.rs:920-926 | Opening a skipped chunk adds the channels it declares, the latest winning. |
| ScanLayout.ScannedComplete | src/mcap.rs:743-780 | For a complete file the record-by-record scan is the group-by-group one: each chunk with the index records after it. |
| ScanLayout.ScannedCutShort | src/mcap.rs:776-780 | For a file cut short the same, with the last chunk opened. |
| ScannedEntries.ScanTells | src/mcap.rs:735-786 | For any file, cut short or not, the entries tell in the file's order exactly of the messages in opened chunks and outside chunks, the clock steps, and the chunks that stay compressed, each with its range and the last place of each channel's index. |
| ScannedEntries.PlainFileFed | src/mcap.rs:458-552 | Feeding what was scanned from a file without clock steps and compressed chunks is feeding exactly its messages, in its order. |
| ScannedEntries.PlainFileListed | src/mcap.rs:735-786 | Of such a file each channel is known by its last declaration, in or outside the chunks, and counted with exactly its messages. |
| IndexPath.Merge | src/mcap.rs:412-422 | The merge of chunks and steps puts each step before the first chunk after it. |
| IndexPath.SortRestores | src/mcap.rs:410-413 | Sorting by offset restores the file's order from indexes in any order. |
| IndexPath.IndexedPermutes | src/mcap.rs:429-444 | The steps found through metadata indexes do not depend on the order of the indexes. |
| IndexPath.StepsFound | src/mcap.rs:429-444 | Whatever the indexes, the steps found are exactly those of the clock-step records that an index of that name leads to. |
| IndexPath.FeedAlike | src/mcap.rs:458-552 | The timeline is fed alike whether a chunk without messages is told as a chunk or as no messages, with or without a record after it. |
| IndexPath.PathsAgree | src/mcap.rs:407-444 | For any complete file with indexes for all its messages and truthful summary, the index path and the linear scan feed the timeline alike under the same flag: the same entries, but for chunks without messages. |
| PathsReport.BothPathsReport | src/mcap.rs:407-444 | Both paths also list the same topics with the same counts, when the summary declares the channels and counts their messages. |
| OpenedChunks.SettledIsKnown | src/mcap.rs:875-927 | The channels a scan knows in the end are those declared outside indexed chunks or in chunks that some later index, or their own, needed; told from the groups alone. |
| OpenedChunks.ScanIsKnown | src/mcap.rs:875-927 | The same at every group, and the chunks still compressed are, in order, the indexed ones not needed so far. |
| LazyChannels.MarkedAreKnown | src/mcap.rs:896-913 | Every channel that an index is for is known once its chunk has been read, if any group so far declares it. |
| LazyChannels.CompleteIsExactUnless | src/mcap.rs:735-848 | A complete file, with a truthful summary or none, is reported with exactly the channels that have a message, an index (be it empty) or a place in the summary, and their messages, if and only if every channel counted without the help of an index and declared anywhere is declared outside the compressed chunks or in the summary. |
| LazyChannels.CompleteIsExact | src/mcap.rs:735-848 | If its summary declares all its channels, each is reported with its messages, however much stayed compressed. |
| LazyChannels.SummaryAdds | src/mcap.rs:832-848 | Whatever the summary, it adds the channels that the scan has not found and renames none, and its statistics decide the counts of its own channels only. |
| LazyChannels.CutShortIsExactUnless | src/mcap.rs:776-786 | The equivalence for a file cut short, the last chunk opened and its indexes set aside. |
| LazyChannels.LostTopic | src/mcap.rs:776-848 | A concrete file that loses a topic, cut short as well as complete without a summary. |
| LazyChannels.OpenSkippedKeeps | src/mcap.rs:896-913 | Opening skipped chunks newest first finds every channel asked for that any of them declares, and forgets no declaration. |
| Scanner.KeysInFlightAreOwned | src/mcap.rs:245-279 | In every run of any threads each key in flight is held by exactly one of a thread about to send it or scanning in place, a queue slot and the worker; the queue has no duplicates. |
| Scanner.EnqueuedAtMostOnce | src/mcap.rs:245-323 | While a file stays readable and unchanged it is enqueued at most once, however threads interleave. |
| Scanner.LockKept | src/mcap.rs:252-270 | A thread is inside the locked section exactly while it holds the lock. |
| ScannerProgress.ListingLooksAfter | src/mcap.rs:252-270 | In every run a thread that leaves the locked section leaves its file in flight, or cached under the very stamp that it has read; so a changed file is scanned again. |
| ScannerProgress.CallLooksAfter | src/mcap.rs:162-215 | However a call ends, the file is then cached under the stamp that the call has read or, for a listing, in flight. |
| ScannerProgress.LookUpDecides | src/mcap.rs:162-215 | A call ends at once exactly when the file is cached under the stamp it has read; a listing goes on to the lock and a synchronous read to its own scan. |
| ScannerProgress.ScanCaches | src/mcap.rs:285-323 | A scan ends with the file cached under the stamp that the scan has read, unless the file cannot be read then; the cache is otherwise as it was. |
| ScannerProgress.ScanKeepsStamp | src/mcap.rs:285-323 | A scan reads the file's stamp when it begins and keeps that stamp to its end. |
| ScannerProgress.CachedIsNotScanned | src/mcap.rs:301-323 | Once a file is cached as it is and no scan is at it, no scan opens it in any run in which it does not change. |
| ScannerProgress.QueuedIsScanned | src/mcap.rs:224-242 | Left to itself the worker scans every queued file as it is now and empties the queue. |
| EnvSyntax.EscapeValue | src/envfile.rs:107-116 | The loop computes the escaping. |
| EnvSyntax.UnescapeValue | src/envfile.rs:302-316 | The one-pass loop computes the unescaping. |
| EnvSyntax.UnescapeEscape | src/envfile.rs:302-316 | Unescaping an escaped value gives it back. |
| EnvSyntax.ParseConfigContent | src/envfile.rs:323-368 | The reader's loop gives each key its last definition, its value as `EnvValues` tells. |
| EnvValues.UnquotedValue | src/envfile.rs:341-363 | A value not enclosed in quotes: its quotes are dropped, and what is left is read as its words when there are two or more, and as the text it is otherwise. |
| EnvValues.PlainValue | src/envfile.rs:347-363 | One word is read as a text, several as an array of exactly those words. |
| EnvValues.QuotedValue | src/envfile.rs:341-346 | A value enclosed in quotes is read as one text, in which a backslash escapes a backslash or a quote and nothing else. |
| EnvValues.EveryTextHasWords | src/envfile.rs:347-363 | Every text is words with white space around and between them, so the reading of unquoted values is told for all of them. |
| EnvValues.EveryTextHasParts | src/envfile.rs:347-363 | Every text is parts with quotes between them. |
| EnvValues.EveryTextHasUnits | src/envfile.rs:302-316 | Every text is escapes and single characters, read from left to right. |
| EnvSyntax.RenderedParses | src/envfile.rs:402-407 | A rendered entry is read back as its key and exact value. |
| EnvSyntax.UnsetDefinesNothing | src/envfile.rs:402-407 | An unset entry's line defines nothing. |
| EnvSyntax.IgnoredLines | src/envfile.rs:326-339 | A line defines nothing exactly when it has no equals sign or its first sign after white space is that of a comment. |
| EnvSyntax.ActiveIsParsed | src/envfile.rs:413-437 | The editor takes a line for a definition of a key exactly when the reader does, in any case. |
| EnvSyntax.ActiveNotCommented | src/envfile.rs:413-437 | No line both defines a key and is a comment naming it. |
| EnvSyntax.CommentWouldDefine | src/envfile.rs:413-437 | A comment names a key if and only if what follows its sign would define the key. |
| EnvSyntax.UnsetNamesKey | src/envfile.rs:402-407 | The line written for an unset key is a comment that names the key. |
| Text.UpperIgnoresCase | src/envfile.rs:212-287 | Two keys are the same in upper case exactly when they differ in the case of ASCII letters alone. |
| EnvPlan.EditCommutes | src/envfile.rs:578-640 | Parsing what an edit writes gives the parse of the original with every key matching a submitted one removed and every submitted value bound to its key. |
| EnvPlan.LinesCommute | src/envfile.rs:500-568 | The same on lines, before joining. |
| EnvPlan.InsertedOnce | src/envfile.rs:454-486 | No two entries gain a line below the same line. |
| EnvPlan.OwnerIsOnly | src/envfile.rs:444-451 | An entry owns a line if and only if the line defines its key, so no line has two owners. |
| EnvPlan.LastCommentIsLast | src/envfile.rs:413-437 | The comment located for a key names it without defining it, and no later line does; there is none exactly when no line does. |
| EnvIdempotent.EditIdempotentUnless | src/envfile.rs:578-640 | For every file and accepted update, repeating the edit on its own result changes nothing if and only if the update does not put lines after a carriage return at the very end of a file without CRLF. |
| EnvFreshKeys.EveryEditSettles | src/envfile.rs:578-640 | Every valid update settles a file in one save if and only if the file has a CRLF or does not end in a carriage return. |
| EnvFreshKeys.LostReturn | src/envfile.rs:578-640 | A concrete file and update that a second save changes again. |
| EnvRoundTrip.SavingWhatIsReadSettles | src/envfile.rs:318-368 | When what the parser returns for a file is let through and saved, saving what it returns for the result is let through and changes nothing, for every file and any order of the keys. |
| EnvStable.MarkersDoNotGrow | src/envfile.rs:539-568 | An edit never leaves more marker lines than the larger of one and the number there were. |
| EnvStable.MarkerWithSpace | src/envfile.rs:551-560 | The marker is known with any white space around it. |
| EnvStable.UnownedLinesSurvive | src/envfile.rs:500-536 | Every line is written, as its owner's or, without one, unchanged. |
| EnvStable.LinesKeepOrder | src/envfile.rs:500-536 | The lines keep their order. |
| EnvStable.UnchangedIfQuiet | src/envfile.rs:500-568 | The lines written are the lines read if and only if nothing is rewritten, inserted or appended. |
| EnvStable.InsertedBelow | src/envfile.rs:454-536 | A value whose key has no line but a comment is written directly below the last comment that names the key. |
| EnvStable.AppendedLast | src/envfile.rs:539-568 | The values whose keys appear nowhere come last, in the order submitted, below the marker, which is written with them when the file has none, after an empty line unless the file is empty. |
| EnvReport.UniformRoundTrip | src/envfile.rs:584-640 | A uniformly terminated file with nothing to change is written back byte for byte. |
| EnvReport.QuietIfUnchanged | src/envfile.rs:489-497 | An edit has nothing to do if and only if every disposition is Unchanged. |
| EnvReport.DispositionTells | src/envfile.rs:489-497 | Each disposition tells what was defined before and is after: an update or unset of a key that was defined, an insertion below a comment or else an append of one that was not, and unchanged when every line defining the key was as it should be. |
| EnvIdempotent.ChangeIsExact | src/envfile.rs:584-640 | For every file and accepted update the content changes if and only if the file mixes line endings or some disposition is other than Unchanged. |
| EnvValidate.Validate | src/envfile.rs:212-287 | Succeeds if and only if no key offends, with entries in upper case, valid and distinct; otherwise reports exactly the offending keys, a collision under both its keys. |
| EnvValidate.EntriesAccepted | src/envfile.rs:212-287 | Entries of updates none of which offends have valid, pairwise distinct keys and no control characters. |
| EnvUpdates.LetThroughIff | src/envfile.rs:212-287 | Updates are let through if and only if every key is the name of a setting, every value is null or text without control characters, and no two keys are the same in upper case; the items of an array are strings, numbers and booleans without white space. |
| EnvUpdates.SavedIsRead | src/envfile.rs:578-640 | After a save each submitted key is read as the text it was submitted with, an array as its items with one space between any two, and a key submitted as null is defined in no case. |
| EnvUpdates.ArrayReadBack | src/envfile.rs:318-322 | Joining an array of words and reading the text where it stands without quotes gives the array back. |
| EnvEdit.Locate | src/envfile.rs:413-437 | Every submitted key gets all its active lines in order and its last comment. |
| EnvEdit.Place | src/envfile.rs:454-486 | Each line gets the entry that owns it or gains a line below it, each entry without a home is appended in order. |
| EnvEmit.WriteOwned | src/envfile.rs:507-530 | A line is kept or replaced by its owner's, and a real change outranks Unchanged. |
| EnvEmit.WriteBody | src/envfile.rs:500-536 | The body and what is recorded of each key are the specified ones. |
| EnvEmit.WriteMarker | src/envfile.rs:551-560 | The marker is written once, after an empty line unless the file is empty, and not when a line is one already. |
| EnvEmit.AppendMissing | src/envfile.rs:539-568 | The entries without a home follow, are told as appended, and are exactly the unmatched keys. |
| EnvEmit.FillUnchanged | src/envfile.rs:624-630 | Every submitted key gets a disposition, Unchanged when nothing else was told of it. |
| EnvEmit.PlanEntries | src/envfile.rs:584-640 | The plan's content, dispositions, unmatched keys and changed flag are the specified ones. |
| EnvEmit.PlanEdit | src/envfile.rs:578-640 | An update is refused with exactly its offending keys, or planned: content as specified, one disposition per upper-case key, unmatched exactly the appended keys, changed exactly when the content differs. |
| TopicRequests.SetStaysBounded | src/topics.rs:343-387 | Over all runs the set holds at most the larger of the limit and the built-in count, and never loses a built-in. |
| TopicRequests.BatchAllPresent | src/topics.rs:515-537 | A status request leaves every topic it names in the set if there is room for them beside the built-ins and the topics requested at its time or later, and only if there is room beside the built-ins; after all earlier requests the two conditions are one. |
| TopicRequests.AcceptedRequestsFit | src/topics.rs:50-95 | With the shipped limits a request of at most 16 topics leaves them all in the set if it is later than all earlier ones, or at most 31 topics were requested no earlier. |
| TopicRequests.LateRequestsWin | src/topics.rs:515-537 | A concrete run in which a request with an earlier time loses a topic although there is room beside the built-ins. |
| TopicRequests.CycleExpires | src/topics.rs:376-387 | In every run a cycle drops exactly the topics that are not built in and were last requested longer ago than the expiry, and touches no other. |
| TopicRequests.KnownIsTouched | src/topics.rs:343-349 | A request for a topic in the set keeps the later of its two times, gives a built-in topic none, and touches no other topic. |
| TopicRequests.StatusExpires | src/topics.rs:515-537 | A topic that a status request does not name is in the set afterwards only if it was within the expiry, and its request time is as it was. |
| TopicRequests.EvictsOldest | src/topics.rs:350-363 | A new topic in a full set replaces the least recently requested one, by time and then by key. |
| TopicSets.TopicObserver.Observe | src/topics.rs:232-237 | The latest sighting counts; one before the epoch counts as the epoch and one beyond 64 bits as the last. |
| TopicSets.SampleOne | src/topics.rs:647-678 | Sampling a topic leaves the latest of the sighting before and the arrivals, and covers it; without a subscription nothing changes. |
| TopicSets.BridgeObserver.constructor | src/topics.rs:265-269 | A bridge adds one to its observer's bridges. |
| TopicSets.BridgeObserver.Drop | src/topics.rs:277-281 | Dropping it takes one away. |
| TopicSets.TopicSet.constructor | src/topics.rs:304-323 | The set starts with exactly the built-in topics, none of which has a request time, each with its own observer that is unseen, unbridged and not sampled. |
| TopicSets.TopicSet.Oldest | src/topics.rs:351-356 | The search finds the least recently requested topic, and none exactly when no topic was requested. |
| TopicSets.TopicSet.Request | src/topics.rs:343-373 | The new contents are the specified ones, the answer says whether the topic was added, an added topic gets a new observer, known topics keep theirs and none is shared. |
| TopicSets.TopicSet.Expire | src/topics.rs:376-387 | Exactly the topics not requested within the expiry go; the others keep their observers. |
| TopicSets.TopicSet.RequestBatch | src/topics.rs:515-537 | The whole request leaves the specified contents and wakes the sampler exactly when it added a topic. |
| TopicSets.TopicSet.Due | src/topics.rs:391-398 | Exactly the topics without a live bridge, or of those the ones no cycle has covered. |
| TopicSets.TopicSet.Bridge | src/topics.rs:401-405 | A handle for a topic in the set, whose observer then counts one bridge more; no other observer changes. |
| Schedule.CyclesNeverDrift | src/topics.rs:602-641 | Whatever wakes the sampler, cycle k begins exactly k refreshes after the first and no two batches of samplers overlap. |
| Schedule.StepKeepsSchedule | src/topics.rs:602-641 | Every step of the sampler keeps the next cycle on time, extra sampling included. |
| Schedule.StaysAvailable | src/topics.rs:126-134 | An unbridged, retained topic seen in every full cycle is never older than a refresh and a window, and so is available when the availability window allows for that. |
| Schedule.AvailableByDefault | src/topics.rs:33-45 | With the shipped timing such a topic is always available. |
| Schedule.SilentIsUnavailable | src/topics.rs:126-134 | A topic that has gone silent is available exactly until the availability window, in whole milliseconds, and one more have passed since it was seen; one never seen is not available. |
| Schedule.SampledByNextCycle | src/topics.rs:391-398 | A topic in the set and unbridged is sampled by the next full cycle, whenever it was added. |
| Schedule.CycleSamplesAll | src/topics.rs:391-398 | A full cycle begins with exactly the topics in the set that no bridge serves. |
| Schedule.FirstCycleSamplesAll | src/topics.rs:602-641 | The first full cycle samples every built-in topic. |
| Schedule.AddedIsPending | src/topics.rs:343-373 | A topic that is added is unbridged, unseen and unsampled, and a wake-up is pending. |
| Schedule.WakeSamplesPending | src/topics.rs:602-641 | A wake-up begins extra sampling exactly when that can end before the next cycle, and of exactly the unbridged topics that nothing has sampled. |
| Schedule.AddingWakes | src/topics.rs:515-537 | From the addition of a topic on, a wake-up of the sampler is pending until it comes. |
| Schedule.PendingIsSampledSoon | src/topics.rs:602-641 | In every run such a topic is covered by the batch that ends next, within a window of the wake-up. |

## Left out

- MCAP record contents, chunk decompression and checksums: a record's contents and a chunk's messages are given; only the length prefixes are decoded.
- File metadata, memory mapping, and the classification of a file by its summary: the scanner takes a file's stamp as given.
- Frame rates and seconds: the model stops at nanosecond spans, counts and segment numbers (`src/mcap.rs:690-724`).
- Conservation.DurationConservation: assumes that shifted spans and sums stay within 64 bits, because the code clamps and saturates outside.
- SpanPieces.PiecesAreMeasured: assumes that the pieces together stay within 64 bits, because the code saturates outside.
- FeedTopics.FileTopicsWithinRecording: one direction only; the property can fail when a chunk is trimmed (`FeedTopics.TrimmedTopicOutlasts`), but need not.
- StepInvariance.StepSizesDoNotMatter: chunks whose indexes cannot be read are not among its files; a chunk before a record is then trimmed and not split.
- StepInvariance.WhatIsReported: the duration and the steps only; where a leak is not told apart, a channel's extent is read from its first and last chunk (`src/mcap.rs:664-688`), which need not be its hull when times go back.
- IndexPath.PathsAgree: files whose summary is missing or untruthful take the linear scan only, which `LazyChannels` and `Scan` cover.
- LazyChannels.CompleteIsExactUnless: a summary, where there is one, is assumed to be truthful; one that is not can override the counts, as in the program.
- LazyChannels.CutShortIsExactUnless: equal channel ids are assumed to carry identical records, as the MCAP specification demands in its section "Channel (op=0x04)".
- Scanner.EnqueuedAtMostOnce: the cache holds only the stamp a scan was made under, not what the scan found.
- The regular-expression engine, Unicode case folding and the rendering of JSON numbers: keys are compared on ASCII letters and a number is given by its text.
- EnvValidate.Validate: the wording of reasons, and which of several reasons is kept for one key, are not modelled.
- EnvFreshKeys.EveryEditSettles: texts are at most as long as 64 bits can count.
- TopicRequests.BatchAllPresent: between the two conditions the outcome depends on the order of the batch and on ties, which are broken by key; that case is not characterised.
- Schedule.CyclesNeverDrift: timers fire on time and a batch ends within its window; the lateness of a real timer moves all later cycles.
- Bridge counts across eviction: a topic added again has a new observer.
- Parsing of topic names, rate limiting of warnings, HTTP handlers, WebSockets, Zenoh calls, TLS, uploads, systemd and process control.
