# Sparrow connectors and admission, verified

A Dafny model of the state machines in Sparrow's connector and control crates that carry
data or decide what may be forgotten, with proofs about all their inputs and all their runs.
`dafny verify dfyconfig.toml` checks the whole project.

| module | what it models |
|---|---|
| `Framing`, `Outcomes` | the reference: splitting a whole byte string into records and classifying each one |
| `PrintedLines` | what the reference means: printed records are read back as their contents |
| `Fingerprint` | the sampled content identity of a file |
| `FileReplay`, `FileRuns` | the incremental file reader (read chunks, scan budgets, appends), seek, resume, bounded replay |
| `FilePolls`, `FilePublish`, `FileFeed` | decoding with a quarantine, publishing to the inbox, feed readiness |
| `JsonText`, `HttpRecords` | JSON texts with their whitespace, and the hand-written record splitter |
| `HttpPoll` | admission of a polled response, conditional validators, the schedule |
| `HttpDelivery`, `HttpCollector` | merging request bodies in place, and the sink's collector loop as a step system |
| `SegmentScan`, `SegmentWriter` | the file sink's directory scan, rotation, quotas, torn tails |
| `LookupShape` | the shape scan of a lookup response |
| `CheckpointAdmission` | checkpoint admission under interleaving |

The file is a byte string that grows by appends; `fill_buf` returns any non-empty piece of
what is left; the scan budget and the record bound are parameters. Whether credit is granted,
a write gets through, a job is cancelled, a receiver goes away or a POST succeeds is decided
by the environment (arguments, or constants of the object that no method can change) at every
point where the source can observe it, so every theorem covers every such choice. Concurrent parts (`HttpCollector`, `CheckpointAdmission`) are step systems:
`Run` folds any list of events, each enabled where it happens, and theorems quantify over the list.

Four things the code does that its surroundings might not expect, each with its exact condition:

- The bounded-replay end is tested only on entry to a read. Every read, for every budget, reports
  nothing past it if and only if the record ending there is not blank, or nothing but blanks
  follows (`FileRuns.BoundedExactly` and `FileRuns.BoundedRead`; `FileRuns.BlankEndOverruns` reads
  past the end of a blank first line).
- The tail check of a restart tells a torn segment from a whole one at every crash point if and only
  if no row holds a raw line feed (`SegmentWriter.TailToldExactly`).
- The fingerprint pins files of up to 8193 bytes and no longer ones: byte 4096 of any larger file
  is in no window (`Fingerprint.SmallFilesPinned`, `Fingerprint.LargeFilesNotPinned`).
- The next poll instant lies after the completion time if and only if the tick count fits 32 bits
  or the delay is longer than the busy time (`HttpPoll.NextPollLater`).

## Model

| member | source | states |
|---|---|---|
| Framing.NextEnd | crates/sparrow-formats/src/csv.rs:336-357 | The terminator of a record is the first line feed outside quotes after its start, with nothing that terminates before it. |
| PrintedLines.StripsTerminator | crates/sparrow-connectors/src/file_replay.rs:625-640 | For NDJSON and CSV, one LF or CRLF is removed from a record and nothing else. |
| PrintedLines.StripsTail | crates/sparrow-connectors/src/file_replay.rs:625-640 | At the end of a file without a line feed NDJSON drops one carriage return and CSV keeps it. |
| PrintedLines.LineEnds | crates/sparrow-formats/src/csv.rs:336-357 | A record printed from bare and quoted pieces ends at its own line feed, whatever line feeds its quoted pieces hold. |
| PrintedLines.PrintedFile | crates/sparrow-connectors/src/file_replay.rs:603-657 | Any list of records printed with LF or CRLF is read back as exactly their contents in order, blank ones skipped, overlong ones reported, a CSV byte order mark dropped from the first. |
| PrintedLines.PrintedTail | crates/sparrow-connectors/src/file_replay.rs:744-756 | The same with an unterminated last record, which counts only under a terminal contract. |
| PrintedLines.PrintedHeader | crates/sparrow-connectors/src/file_replay.rs:603-657 | In a CSV file with a header the first record that is not blank is the header and never a row; one that is too long or does not parse ends the file. |
| PrintedLines.EveryFileIsPrinted | crates/sparrow-connectors/src/file_replay.rs:733-781 | Every NDJSON file, and every CSV file without multiline, has this printed form, so these laws cover all of them. |
| FileReplay.FindTerminator | crates/sparrow-formats/src/csv.rs:336-357 | Searching chunk by chunk with the carried quote state finds the same terminator as searching the whole file, or reports the right quote state to carry on with. |
| Outcomes.AtPrefix | crates/sparrow-connectors/src/file_replay.rs:733-781 | Appending to a file changes no outcome at or before its old end. |
| Outcomes.WholeGrows | crates/sparrow-connectors/src/file_replay.rs:733-781 | A growing file keeps all the outcomes it already had. |
| Outcomes.SoundIffCut | crates/sparrow-connectors/src/file_replay.rs:809-863 | In a file with a good header the offsets a drain can stand at are exactly 0, the record ends, and the file size under a terminal contract. |
| FileReplay.Classify | crates/sparrow-connectors/src/file_replay.rs:603-657 | A completed record is skipped, handed out, discarded as oversize, used as header or refused as header, exactly as the reference says of its raw bytes. |
| FileReplay.Trim | crates/sparrow-connectors/src/file_replay.rs:603-657 | Terminator, carriage return and byte order mark are removed as the reference defines, whose meaning StripsTerminator, StripsTail and PrintedFile pin down. |
| FileReplay.FileReplaySource.Open | crates/sparrow-connectors/src/file_replay.rs:193-264 | A fresh reader is valid, at offset 0, with no outcomes, and holds the file's identity. |
| FileReplay.FileReplaySource.Take | crates/sparrow-connectors/src/file_replay.rs:740-773 | One piece of the prefetched bytes, cut by the budget or the terminator, extends the record in progress and keeps the bounded pending buffer or the discarding flag right for its length. |
| FileReplay.FileReplaySource.FinishRecord | crates/sparrow-connectors/src/file_replay.rs:603-657 | Ending a record moves the offset over its raw bytes and the progress by exactly one record of the reference, index included. |
| FileReplay.FileReplaySource.Turn | crates/sparrow-connectors/src/file_replay.rs:739-780 | One round of the loop takes bytes and reports nothing, or answers with exactly one further outcome, EOF only when the reference has nothing more; the cursor moves by the bytes taken. |
| FileReplay.FileReplaySource.ReadFrame | crates/sparrow-connectors/src/file_replay.rs:733-781 | Whatever the chunks, budget and growth, the answer is the next outcome of the reference, EOF only when nothing is left, or `Pending` only after the whole budget has been consumed; at a replay end nothing moves. |
| FileReplay.FileReplaySource.CsvResume | crates/sparrow-connectors/src/file_replay.rs:662-731 | Re-reading the prefix accepts every offset a drain can reach and rebuilds its header mapping, and in multiline files accepts nothing inside a quoted record. |
| FileReplay.FileReplaySource.Seek | crates/sparrow-connectors/src/file_replay.rs:809-863 | An accepted seek lands on a record boundary with the progress a drain has there; a rejected one leaves every cursor field unchanged; admissible reachable cuts are accepted. |
| FileReplay.FileReplaySource.SetReplayEnd | crates/sparrow-connectors/src/file_replay.rs:278-291 | A replay end is accepted exactly for NDJSON at a record boundary between the offset and the file end. |
| FileReplay.FileReplaySource.CheckpointPosition | crates/sparrow-connectors/src/file_replay.rs:307-359 | The stored cut is the cursor's, and its identity, over the bytes before it or the whole terminal file, holds of the file. |
| FileRuns.Run | crates/sparrow-connectors/src/file_replay.rs:733-781 | Every script of polls and appends reports, in order and without loss or repetition, the outcomes of framing the file directly: all of them once EOF was answered, and at least all the file held at the start after a bounded number of polls with some budget; the record index counts the records consumed. |
| FileRuns.NextFrame | crates/sparrow-connectors/src/file_replay.rs:784-794 | In a terminal file polling until there is an answer ends for every positive budget, with the next outcome or with none left. |
| FileRuns.Drain | crates/sparrow-connectors/src/file_replay.rs:784-794 | Draining a terminal file ends and reports every outcome it still holds, and fails exactly on a bad header. |
| FileRuns.Resume | crates/sparrow-connectors/src/file_replay.rs:809-863 | With a good header a stored cut is accepted if and only if its identity holds and a drain can stand there; every run from it reports a prefix of exactly the remaining outcomes, all of them at EOF or after enough polls. |
| FileRuns.CheckpointRestart | crates/sparrow-connectors/src/file_replay.rs:307-359 | Run, store a cut, reopen the file after any growth and run on: the cut is accepted, record numbers go on, and the two runs together report the file's outcomes with no loss and no repetition. |
| FileRuns.ReplacedFile | crates/sparrow-connectors/src/file_replay.rs:506-561 | A cut stored for another file, of up to 8193 bytes and without a collision, is refused and the cursor stays. |
| FileRuns.RunBounded | crates/sparrow-connectors/src/file_replay.rs:733-781 | A replay bounded by the end of a non-blank record never passes it, reports exactly the outcomes before it, gets there after a bounded number of polls, then answers EOF without moving. |
| FileRuns.BoundedRead | crates/sparrow-connectors/src/file_replay.rs:733-781 | A read of a bounded replay, whatever its budget, reports only at the file's next stop; with enough budget it runs past the end if and only if that stop does. |
| FileRuns.BoundedExactly | crates/sparrow-connectors/src/file_replay.rs:733-781 | The next outcome after every boundary before a replay end lies within it if and only if the record ending there is not blank or only blanks follow. |
| FileRuns.BlankEndOverruns | crates/sparrow-connectors/src/file_replay.rs:733-781 | A concrete file and read on which a blank last record lets a bounded read run on and report the record behind the end. |
| Fingerprint.ContentFingerprint | crates/sparrow-connectors/src/file_replay.rs:579-598 | The sampling loop computes the fingerprint of the three windows, and a window read fails exactly when the file is shorter than the size asked for. |
| Fingerprint.SamplesOnlyPrefix | crates/sparrow-connectors/src/file_replay.rs:579-598 | The windows at size n depend on the first n bytes only. |
| Fingerprint.AppendKeepsIdentity | crates/sparrow-connectors/src/file_replay.rs:506-561 | Every append passes the append-only identity check. |
| Fingerprint.SmallFilesPinned | crates/sparrow-connectors/src/file_replay.rs:579-598 | Without a hash collision, equal fingerprints of files of up to 8193 bytes mean equal contents. |
| Fingerprint.LargeFilesNotPinned | crates/sparrow-connectors/src/file_replay.rs:579-598 | In every larger file byte 4096 can change without changing the fingerprint. |
| Fingerprint.OptionsBound | crates/sparrow-connectors/src/file_replay.rs:567-576 | Without a collision two CSV option sets never share a bound fingerprint. |
| Fingerprint.LittleEndianValue | crates/sparrow-connectors/src/file_replay.rs:579-598 | Sizes and offsets are mixed in as little-endian u64 values. |
| Fingerprint.EqualIdentities | crates/sparrow-connectors/src/file_replay.rs:567-598 | Without a collision equal identities are those of files with equal sizes and windows, and up to 8193 bytes equal contents. |
| Fingerprint.IdentityPins | crates/sparrow-connectors/src/file_replay.rs:506-561 | Without a collision a stored identity is accepted only of a file, or under the append-only contract a prefix, with the same sampled contents: up to 8193 bytes the same contents. |
| FilePolls.FilePoller.Rollback | crates/sparrow-connectors/src/file_replay.rs:424-426 | Seeking back to the position before a record restores offset, index and progress although the file may have grown. |
| FilePolls.FilePoller.PollDecoded | crates/sparrow-connectors/src/file_replay.rs:414-442 | A row, drop or capture consumes exactly one outcome, a full quarantine and `Pending` none; `Pending` has used its budget, and an error has a bad header, a record the quarantine does not take, or the quarantine itself behind it. |
| FilePolls.FilePoller.RunPolls | crates/sparrow-connectors/src/file_replay.rs:414-442 | Over any sequence of quarantine answers the rows are the good records in order and the quarantine holds the undecodable ones in order, each once: those of the whole file at EOF, and at least those of the file at the start after enough polls. |
| FilePolls.EveryOutcomeOnce | crates/sparrow-connectors/src/file_replay.rs:414-442 | Every outcome is exactly one of row, poison and unfit, and poison are exactly the payloads that fail with a record error, as often as they occur. |
| FilePolls.FilePoller.DrainPolls | crates/sparrow-connectors/src/file_replay.rs:414-442 | From any state of any run, once the quarantine has room, polling a terminal file ends with every good row handed out and every bad record captured, or fails on a bad header or a record the quarantine does not take. |
| FilePolls.FilePoller.PollBatch | crates/sparrow-connectors/src/file_replay.rs:448-479 | A batch holds the next rows in order, ends at the first EOF, pending or full answer, stops short of the frame limit only there or past the byte limit, and moves the reader unless it starts with such an answer. |
| FilePublish.Publisher.PublishRows | crates/sparrow-control/src/file_source.rs:211-234 | A chunk of rows is sent whole and counted, or not sent and not counted. |
| FilePublish.Publisher.ApplyPoll | crates/sparrow-control/src/file_source.rs:78-159 | Undisturbed, a poll has exactly its specified effect and answer; cancelled on entry or disturbed later it sends no more; a row is counted before it is sent. |
| FilePublish.Publisher.ApplyBatch | crates/sparrow-control/src/file_source.rs:164-209 | Undisturbed, the batched drive leaves the state of the per-item drive, with the same answer for the batches the reader makes; cancelled or closed at any await it does so too or answers `Done` after sending a prefix, and `ingested` is the rows sent. |
| FilePublish.Publisher.Drive | crates/sparrow-control/src/file_source.rs:164-234 | Undisturbed, all batches of a run do what the per-item drive does; disturbed they do too or stop with `Done` after a prefix of it; always the terminal watermark is sent at most once and `ingested` is the number of rows sent. |
| FilePublish.DriveSends | crates/sparrow-control/src/file_source.rs:78-159 | Over polls that neither end the file nor fail, exactly the rows are sent, in order, and counted; only a full quarantine waits. |
| FilePublish.DriveEnds | crates/sparrow-control/src/file_source.rs:114-158 | The end of a terminal file sends the watermark behind all rows unless it was sent before and ends the drive, the end of a growing file waits, and a fatal decode error fails. |
| FilePublish.SameAnswer | crates/sparrow-control/src/file_source.rs:164-209 | Batched and per-item answers agree if and only if the list does not end with rows behind a wait. |
| FilePublish.ShapedAnswer | crates/sparrow-control/src/file_source.rs:164-209 | Lists of the shape `poll_decoded_batch` makes get the same answer from both drives. |
| FilePublish.UnshapedAnswer | crates/sparrow-control/src/file_source.rs:164-209 | A full quarantine followed by a row gets different answers, so the shape is needed. |
| FileFeed.ReconcileLength | crates/sparrow-connectors/src/file_feed.rs:29-34 | Two length samples give an observation exactly when they do not shrink, and then the later one. |
| FileFeed.ObservedUnlessShorter | crates/sparrow-connectors/src/file_feed.rs:89-131 | There is an observation exactly when neither sample is shorter than what the reader holds or than the other, and its head is the later sample. |
| FileFeed.FeedReadiness | crates/sparrow-connectors/src/file_feed.rs:89-195 | In every live reader state each readiness is one exact fact about cursor and head, a head at the cursor leaves no prefetched byte, and caught-up or ended means the outcomes so far are those of the whole observed file. |
| FileFeed.EverythingBefore | crates/sparrow-connectors/src/file_feed.rs:168-189 | A live reader at offset o has reported exactly the outcomes of the first o bytes. |
| HttpRecords.PassNested | crates/sparrow-connectors/src/http_poll.rs:1349-1394 | The value scan passes any well-formed array or object as a whole, at any depth, whatever its strings contain. |
| HttpRecords.TopValue | crates/sparrow-connectors/src/http_poll.rs:1349-1394 | On any well-formed value followed by a separator, closer, whitespace or the end, the scan ends exactly behind the value. |
| HttpRecords.ArrayRoundTrip | crates/sparrow-connectors/src/http_poll.rs:1288-1345 | Printing any values into an array with any whitespace and splitting it gives exactly the element texts, in order, then a clean end. |
| HttpRecords.EmptyRoundTrip | crates/sparrow-connectors/src/http_poll.rs:1288-1345 | Blank bodies and empty arrays split into nothing, cleanly. |
| HttpRecords.RootObject | crates/sparrow-connectors/src/http_poll.rs:1288-1345 | A root object is one record, without the whitespace around it. |
| HttpRecords.CleanArray | crates/sparrow-connectors/src/http_poll.rs:1288-1345 | Any array run that ends without error has only whitespace, the outer brackets and exactly one comma per gap outside its spans. |
| HttpRecords.CleanBody | crates/sparrow-connectors/src/http_poll.rs:1288-1345 | A body that splits without an error is blank, one object, or an array of that layout; any other root is an error. |
| HttpRecords.Records.SkipSpace | crates/sparrow-connectors/src/http_poll.rs:1248-1252 | The cursor moves over JSON whitespace and no further. |
| HttpRecords.Records.ScanValue | crates/sparrow-connectors/src/http_poll.rs:1349-1394 | The scanning loop ends where the scan function of the round-trip theorems does. |
| HttpRecords.Records.NextJsonSpan | crates/sparrow-connectors/src/http_poll.rs:1288-1345 | One call takes exactly one step of the splitter the round-trip theorems are about. |
| HttpRecords.Records.NextLine | crates/sparrow-connectors/src/http_poll.rs:1266-1286 | An NDJSON span is the trimmed content of the next non-blank line; the end is answered only when nothing but whitespace is left. |
| HttpPoll.Ingress.Admit | crates/sparrow-connectors/src/http_poll.rs:1094-1172 | The inbox grows by the row exactly when it is sent; complete, incomplete and stopped admission count one row, one drop of the right kind, and nothing, exactly by how the wait ends. |
| HttpPoll.Ingress.CompleteRecord | crates/sparrow-connectors/src/http_poll.rs:810-880 | A record is complete exactly when it is within the size bound, has parser credit, decodes and is sent; it fails or stops the response exactly in the stated cases. |
| HttpPoll.Ingress.Ingest | crates/sparrow-connectors/src/http_poll.rs:773-887 | A response gets through if and only if it splits cleanly and neither a record nor the environment ends it; then spans equal rows plus drops, and it is complete if and only if there was no drop, and then the inbox grew by exactly what all its spans decode to, in order; stopping and failing have their cause. |
| HttpPoll.Poller.PollOnce | crates/sparrow-connectors/src/http_poll.rs:633-680 | Validators advance on a complete response and only then; a cycle is complete if and only if the response is modified, uncancelled, splits cleanly and has every record handed over; every other kind of cycle is tied to the reply, the cancellations and the records behind it; a 304 that matches means the current version was handed over in full. |
| HttpPoll.RunPolls | crates/sparrow-connectors/src/http_poll.rs:534-631 | On every run against an honest server with distinct validators, at each not-modified cycle the last complete response before it was of the very version current then, handed over in full; what is stored always comes from the last complete response; the run ends early only when stopped or on a fatal record. |
| HttpPoll.Poller.Schedule | crates/sparrow-connectors/src/http_poll.rs:578-630 | After k failures the delay is min(interval·2^k, backoff_max), and the skipped ticks are the whole intervals spent busy. |
| HttpPoll.NextPollLater | crates/sparrow-connectors/src/http_poll.rs:620-629 | The next poll is at least one interval after the last start, at most one interval after the completion time unless the delay is longer, and after the completion time if and only if the tick count fits 32 bits or the delay exceeds the busy time. |
| HttpPoll.ClampedPoll | crates/sparrow-connectors/src/http_poll.rs:620-629 | At the shortest interval 13.6 years of busy time meet the clamp: the next poll is due at the completion time itself. |
| HttpDelivery.MergeArrays | crates/sparrow-connectors/src/http.rs:209-278 | Splicing two encoded arrays, empty ones included, is encoding the concatenated rows. |
| HttpDelivery.MergeDocuments | crates/sparrow-connectors/src/http.rs:209-278 | Dropping the second header is encoding the concatenated records under one header. |
| HttpDelivery.BodySplits | crates/sparrow-connectors/src/http.rs:516-623 | A body of JSON rows is their JSON array: a receiver that splits it gets exactly these rows. |
| HttpDelivery.Delivery.Grow | crates/sparrow-connectors/src/http.rs:231-258 | Billed credit covers capacity and overhead after every growth that is kept, and a growth is given up only when credit or memory is refused. |
| HttpDelivery.Delivery.MergeWith | crates/sparrow-connectors/src/http.rs:209-278 | Deliveries that may share a request are merged unless the buffer must grow and memory is refused; a merge encodes both row lists in exactly the precomputed size within cap and row limit and adds up the receipts; otherwise both bodies and receipts are unchanged. |
| HttpDelivery.Delivery.Ack | crates/sparrow-connectors/src/http.rs:163-176 | Acknowledging settles all batches of a delivery once and leaves none for the drop. |
| HttpDelivery.PostTask | crates/sparrow-connectors/src/http.rs:444-463 | A post task settles each batch of its delivery exactly once, by the outcome of the POST. |
| HttpCollector.EveryRun | crates/sparrow-connectors/src/http.rs:399-514 | In every state of every run each accepted batch is in exactly one place, launches keep arrival order, posts in flight are bounded, and flags and queues agree. |
| HttpCollector.SettledExactlyOnce | crates/sparrow-connectors/src/http.rs:399-514 | On every run that ends, each accepted batch was acknowledged or failed exactly once, and no other batch was. |
| HttpCollector.InFlightAndInOrder | crates/sparrow-connectors/src/http.rs:399-514 | At most `max_inflight` posts are in flight, launches are an order-preserving part of arrivals, and with one in flight so are acknowledgements. |
| HttpCollector.NeverStuck | crates/sparrow-connectors/src/http.rs:467-499 | Whenever the collector waits, an arm other than cancellation and flush is open. |
| HttpCollector.OnlySlotsHoldBack | crates/sparrow-connectors/src/http.rs:425-499 | While the collector waits, a carried batch, a flushed group, a group at the end of input and the last group before a barrier are held back by nothing but full request slots. |
| HttpCollector.EofDropsNothing | crates/sparrow-connectors/src/http.rs:464-502 | Leaving the loop on end of input fails nothing and leaves no task and no queued batch. |
| HttpCollector.CalmRunAcksAll | crates/sparrow-connectors/src/http.rs:399-514 | On every run without cancellation, refused or discarded batches and failed posts nothing fails, and when it ends every sent batch has been acknowledged. |
| HttpCollector.EveryRunCanEnd | crates/sparrow-connectors/src/http.rs:399-514 | With `max_inflight` at least 1, every run that is not cancelled can go on without cancellation and without a failure until it has stopped: the end of input is noticed, the last group launched and every post joined. |
| HttpCollector.DueGroupLaunches | crates/sparrow-connectors/src/http.rs:431-462 | A group that is due, flushed, at the end of input or last before a barrier is launched as one post as soon as there is a slot. |
| HttpCollector.TimerLaunches | crates/sparrow-connectors/src/http.rs:471 | The linger timer makes the next turn launch the group. |
| HttpCollector.MergesOrFollows | crates/sparrow-connectors/src/http.rs:477-491 | A batch that merges is posted with the group, and one that does not fit makes the group go first and follows it. |
| HttpCollector.Backpressure | crates/sparrow-connectors/src/http.rs:472 | While every slot is busy, a batch is carried or the group is being flushed, no batch is taken from the queue. |
| HttpCollector.ReachedTargetForgotten | crates/sparrow-connectors/src/http.rs:425-427 | A barrier is in force from its request until it is reached. |
| HttpCollector.StepOrders | crates/sparrow-connectors/src/http.rs:399-514 | No step reorders what is launched, being posted, grouped, carried and queued. |
| SegmentScan.Scan | crates/sparrow-connectors/src/file_sink.rs:205-287 | In any listing order the scan succeeds if and only if the directory is acceptable, and returns its total size, segment count and next number. |
| SegmentScan.CountPart | crates/sparrow-connectors/src/file_sink.rs:240-281 | A segment is counted if and only if its number, size, tail and the totals with it are within bounds. |
| SegmentWriter.Writer.Open | crates/sparrow-connectors/src/file_sink.rs:157-204 | Opening succeeds exactly on valid configurations, acceptable directories and a free lock, with counters that describe the directory; it is refused for foreign names, another marker, data without one, quotas exceeded, numbers out of range and torn tails. |
| SegmentWriter.Writer.Rotate | crates/sparrow-connectors/src/file_sink.rs:308-332 | A new segment gets the next unused number and starts with the header, and the counters follow; a failed create, sync or header write leaves nothing, an empty segment or a prefix of the header. |
| SegmentWriter.Writer.Append | crates/sparrow-connectors/src/file_sink.rs:333-341 | A row goes behind the rows of the open segment and the counters follow, or a prefix of it is left. |
| SegmentWriter.Writer.Row | crates/sparrow-connectors/src/file_sink.rs:288-343 | A row is refused, with nothing changed, exactly when a quota leaves no room; it fails exactly when the system fails a create, write, flush or sync, touching one segment by a prefix, and then a restart accepts the directory if and only if that segment is not torn; otherwise it goes behind all earlier rows, and old segments stay as they were. |
| SegmentWriter.Writer.RoomOnDisk | crates/sparrow-connectors/src/file_sink.rs:288-312 | Fitting and room, by the counters, are facts about the directory: the open segment's size, the total and the number of segments. |
| SegmentWriter.Writer.SetHeader | crates/sparrow-connectors/src/file_sink.rs:369-396 | A different header closes the open segment before it takes effect. |
| SegmentWriter.Writer.Batch | crates/sparrow-connectors/src/file_sink.rs:354-442 | Reading the segments in order gives the earlier rows and then the accepted rows of the batch; they are only in segments with the batch's header; closed segments are unchanged; a batch ends early only for lack of room, a stop, or a failed call, after which a restart accepts the directory if and only if no segment is torn. |
| SegmentWriter.Writer.Restart | crates/sparrow-connectors/src/file_sink.rs:157-287 | After any run, reopening with the same configuration succeeds if and only if the lock is free and the marker is within the readable size, and recomputes the same bytes, files and next. |
| SegmentWriter.Writer.OtherDialect | crates/sparrow-connectors/src/file_sink.rs:226-243 | A directory that has been written to is never opened for another format or CSV dialect. |
| SegmentWriter.SegmentReadsBack | crates/sparrow-connectors/src/file_sink.rs:333-341 | The file source reads an NDJSON segment back as exactly the rows written to it. |
| SegmentWriter.PlacedRows | crates/sparrow-connectors/src/file_sink.rs:288-343 | Wherever a row is placed, reading all segments in order yields it last. |
| SegmentWriter.TornTail | crates/sparrow-connectors/src/file_sink.rs:271-281 | For every crash point in any sequence of rows without raw line feeds, the tail check accepts if and only if a whole number of rows was written. |
| SegmentWriter.TornRow | crates/sparrow-connectors/src/file_sink.rs:271-281 | After a failed NDJSON row write, in an open or a new segment, the tail check accepts the segment if and only if the row is entirely absent or entirely there, and no other segment changed. |
| SegmentWriter.FailedWrite | crates/sparrow-connectors/src/file_sink.rs:205-287 | A write that stopped part way keeps all quotas, and a restart accepts the directory if and only if the segment written to is not torn. |
| SegmentWriter.TailToldExactly | crates/sparrow-connectors/src/file_sink.rs:271-281 | The tail check tells torn from whole at every crash point if and only if no row holds a raw line feed. |
| SegmentWriter.TornUnnoticed | crates/sparrow-connectors/src/file_sink.rs:271-281 | In any list of rows, a cut right after a line feed inside a row, as a quoted CSV field may hold, tears the row and passes the tail check. |
| LookupShape.ResponseShape | crates/sparrow-connectors/src/http_lookup.rs:413-489 | The scanning loop answers what the byte-by-byte specification of the two theorems below answers. |
| LookupShape.SpanIsSound | crates/sparrow-connectors/src/http_lookup.rs:413-489 | Any span starts at the only nested opening brace, ends at the next brace, and the response has no array outside strings. |
| LookupShape.FoundIsBounded | crates/sparrow-connectors/src/http_lookup.rs:413-489 | A response that is not refused is within the size bound, closes no object it has not opened, has one nested object at most and no array, no second outer member and at most 16 inner ones. |
| LookupShape.RowSpanExact | crates/sparrow-connectors/src/http_lookup.rs:382-489 | For a response whose one member is a flat object, with any whitespace and any strings, the span is exactly the object's text; it is refused if and only if it is too long or has more than 16 members. |
| LookupShape.ScalarHasNoSpan | crates/sparrow-connectors/src/http_lookup.rs:413-489 | A response whose one member is a scalar, such as `null`, is accepted without a span. |
| CheckpointAdmission.EveryRun | crates/sparrow-control/src/checkpoint.rs:155-239 | In every interleaving the permit is free or held by exactly one caller, `active` says an admission is unfinished, counters are the true counts cut off at the u64 maximum, and all begin calls are accounted for. |
| CheckpointAdmission.AtMostOneAdmission | crates/sparrow-control/src/checkpoint.rs:160-181 | At most one admission is live, and both a live admission and `active` imply the permit is held. |
| CheckpointAdmission.CountersBalance | crates/sparrow-control/src/checkpoint.rs:155-239 | Below saturation, returned begin calls are `started` plus `busy`, and `started` plus repeated finishes is `succeeded` plus `failed` plus the active one. |
| CheckpointAdmission.CountersCount | crates/sparrow-control/src/checkpoint.rs:160-239 | Each counter counts its own events of the run, cut off at the u64 maximum. |
| CheckpointAdmission.DropCounts | crates/sparrow-control/src/checkpoint.rs:227-239 | Dropping an unfinished admission counts as one failure, dropping a finished one as nothing. |
| CheckpointAdmission.BeginAlone | crates/sparrow-control/src/checkpoint.rs:160-181 | A begin is admitted exactly when no other caller holds the permit and counted as busy otherwise. |
| CheckpointAdmission.DropReturnsPermit | crates/sparrow-control/src/checkpoint.rs:227-239 | Dropping an admission returns the permit and clears `active`. |
| CheckpointAdmission.OnlyDropFreesPermit | crates/sparrow-control/src/checkpoint.rs:182-239 | While an admission is live no step of anyone, waiter timeouts and `finish` included, frees the permit; only its own drop can end it. |

## Left out

- Sockets, TLS, DNS, redirects, request building and secrets: input and output of the platform, taken as choices of the environment.
- File-system metadata, symlink and hard-link checks, lock files as such: taken as "identity admitted" and "lock free" inputs.
- Directory entry names: a segment is known by its parsed number; the zero-padded name format is not modelled.
- Hash collision resistance: the hash is any function; where a property needs it, the absence of a collision between the inputs concerned is a hypothesis.
- The CSV, JSON and protobuf codecs: decoding and header parsing are arbitrary functions of the bytes.
- CSV and protobuf ingestion in the poll source: only the JSON path and the NDJSON line splitter are modelled.
- The durable HTTP queue and per-row HTTP actions: other delivery paths than the collector.
- Memory owners, leases and queue observation: whether credit is granted is a choice; only the billed size of a delivery is tracked.
- Retry timing, latency histograms, health labels and diagnostics counters that feed nothing else: no effect on the properties.
- Row, byte and linger limits of a collector group: the point at which a group becomes due is arbitrary, which covers every setting.
- Checkpoint phases, deadlines and inventory fields: copied, never tested.
- Configuration validation other than the bounds used here: single bound checks.
- FileReplay.FileReplaySource.Seek: a header that fails to parse makes some accepted offsets unreachable for a drain; there it states only the boundary and cursor facts.
- FileRuns.NextFrame: for terminal files; in a growing file the loop goes on as long as bytes without a record end keep coming, and progress there is stated by FileRuns.Run.
- FileRuns.RunBounded: covers NDJSON, the only format for which a replay end can be set.
- SegmentWriter.Writer.Batch: after a failed call it states only what a restart makes of the directory, because the sink then drops the writer; which bytes a failed row leaves is stated by SegmentWriter.Writer.Row.
- HttpCollector.NeverStuck: for `max_inflight` of at least 1, which configuration validation demands.
