# LogMQ, modelled and proved

LogMQ is a small Kafka-like message broker. This project models the parts of it in which the difficulty
lies and proves what they are for:

- **The commit log** of a partition: rolled segment files of self-delimiting batches, a sparse index and
  two binary searches on read, recovery from raw bytes. It is proved to be one flat sequence of records
  over whole runs of appends, crashes and reopenings; indexed reads are exact and cheap; recovery keeps
  exactly the whole batches; the checksum (the CRC-32 of section 3.2.9 of IEEE 802.3) catches every burst of up to 32 bits, and a log
  with such damage opens, or not, exactly as its recovery mode says.
- **Delayed retries and dead letters**: a nack appends an envelope to an internal log and publishes a
  deadline; a scheduler releases a contiguous visible prefix under any clock. Every broker run is proved
  to be a run of a small protocol in which each record is in exactly one place; lineage, counts and
  restart are proved over whole runs.
- **The consumer-group coordinator**: generation fencing over runs, exact balanced range assignment.
- **The wire codec and the incremental frame decoder**: round trips and independence from how the stream
  is cut; on top of it the request queue of a connection, its output buffer and short writes.
- **The consumer cursor and the committed-offset store**: polling reconstructs the log; a commit survives
  a crash at any point.

## How it is organised

Each component has a specification made of functions on values, methods or a class in the form of the
source proved against it, and theorems about the specification.

| files | what they hold |
|---|---|
| Basics, Endian, Decimal, SortedKeys | machine integers, byte order, decimal numbers, map order |
| Crc32, CrcBursts, CrcCheckValue, Record, RecordBatch, Layout | the checksum, its bursts and check value, the codecs of records and batches, and where each field is |
| Segment, OffsetIndex, LogLayout | a segment file, its index, and how they fit |
| LogState, LogRecovery, LogDamage, LogRuns, LogRolling, LogRefusals, CommitLog | the commit log as a value, its recovery from crashes and from damage, its runs, when it rolls and refuses, its objects |
| PartitionLog, Topics | a partition as a list of batches, proved to be what the commit log implements |
| Protocol, Wire, RequestCodec, Frames, RetryCodec, RequestExactness, EnvelopeExactness | the wire protocol and what its decoders accept |
| RetryScheduler, RetryRuns, RetryRestarts | the scheduler, the retry protocol, and what restarts do to it |
| Broker, RetryLineage, NackProofs, FetchProofs, ProduceFetch, Refusals | the broker, the lineage of retries, nacks, fetches, what a producer sends and a consumer gets, and error codes |
| RetryStart, StartAcceptance, BrokerLogs, BrokerStorage, BrokerRestarts, BrokerRuns, BrokerWitnesses | Start and what it accepts, the broker's logs, the commit logs under them, its restarts, its runs, and runs that fail |
| Consumer, PollRounds, ConsumerProgress | the polling cursor, whole rounds, and that polling gets to the end |
| PartitionRanges, GroupCoordinator, GroupRuns, GroupMembers | consumer groups: ranges, requests, runs, and who is in a group after each request |
| FileNames, OffsetStore | file names and committed offsets |
| Buffer, TcpConnection | one connection |

Clock readings, the partition picked by the key hash, the outcome of flushes and writes, the room in the
worker queue and the place the index sends a read to are parameters; theorems hold for all of them.

## Where the code surprises

These are proved as they are, with the exact condition:

- A nack while the clock stands at the epoch and the delay is zero stores the deadline 0, which the next
  Start takes for corruption. When: `BrokerRestarts.NackThenStart`; a run: `BrokerWitnesses.EpochDeadlineRefused`.
- An internal topic with more than 2^31 partitions can be created but not be started again. When:
  `BrokerRestarts.WrittenLogsStart`; a run: `BrokerWitnesses.ManyPartitionsRefused`.
- A restart that loses the tail of an ordinary log leaves retry records without their original; nothing
  else can. When: `BrokerRestarts.CutKeepsRootedIff`; a run: `BrokerWitnesses.LostOriginal`.
- A clock set back across a restart hides retry records that were visible. When:
  `RetryRestarts.RestartShowsSameIffDue`; a run: `RetryRestarts.ClockSetBackHidesRecord`.
- A bad frame loses the good requests decoded in the same call, so how the stream is cut matters after
  all. Which: `Frames.BadFrameLoses`; two cuts of the same bytes: `Frames.CutDecidesDelivery`.
- A message that nearly fills a frame can be produced but not nacked, since its envelope would not fit.
  When: `RetryCodec.ProducedNotRetriedIff`; runs: `BrokerWitnesses.LargeMessageRefused`.
- Rejoining an unknown group leaves an empty group behind that no scan removes and that keeps every other
  topic out (`GroupRuns.EmptyGroupAppearsIff`, `GroupRuns.EmptyGroupChangesIff`).
- The decoder accepts a commit of a negative offset that the encoder refuses. Exactly then:
  `RequestExactness.RequestExact`; such frames: `RequestExactness.NegativeCommitDecodes`.
- At the last generation membership changes no longer open a new one, and a member that leaves is refused
  and gone (`GroupMembers.LeaveRefusedIff`). When:
  `GroupRuns.ChangeOpensGenerationIff`; a run that gets there: `GroupRuns.LastGenerationRun`.

## Model

| member | source | states |
|---|---|---|
| Checksum.Crc32 | src/storage/crc32.cpp:8-20 | the nested bit loop over the reflected polynomial computes the specification `Crc32Of`, whose algebra the burst theorem uses |
| CrcBursts.BurstDetected | src/storage/crc32.cpp:8-20 | two byte strings of equal length whose differing bits lie within 32 consecutive bits never have the same checksum, at any length and position |
| CrcCheckValue.CheckValue | src/storage/crc32.cpp:8-20 | the checksum of the nine digits 1 to 9 is 0xCBF43926, the published check value of CRC-32 |
| Endian.LittleEndianRead | src/storage/record.cpp:15-36 | reading a little-endian field gives back the number written, for every width |
| Endian.BigEndianRead | src/protocol/codec.cpp:15-38 | reading a big-endian field gives back the number written, for every width |
| Endian.AppendLittleEndian | src/storage/record.cpp:14-21 | the shifting loop appends exactly the little-endian digits |
| Endian.ReadBigEndian | src/protocol/codec.cpp:24-38 | the accumulating loop reads the number of the digits, or refuses when bytes are missing |
| Records.AppendEncodedRecord | src/storage/record.cpp:73-94 | appends the header with the checksum of the record and its bytes, or refuses an oversized string and appends nothing |
| Records.DecodeRecord | src/storage/record.cpp:96-138 | returns the record at the front with its consumed length, or the right error for a short header, a short payload or a wrong checksum |
| Records.RecordRoundTrip | src/storage/record.cpp:73-138 | decoding an encoded record followed by any bytes gives the record, stamped with its checksum, and its length |
| Records.RecordExact | src/storage/record.cpp:96-138 | whatever bytes decode, the decoded record encodes to exactly the bytes consumed |
| Layout.RecordLayout | src/storage/record.cpp:73-94 | where each field of a stored record is and how it is to be read; the checksum covers every other byte |
| RecordBatches.EncodeRecordsPayload | src/storage/record_batch.cpp:36-57 | the payload is the concatenated encodings, with the size overflow, the vector limit and oversized strings refused |
| RecordBatches.MakeRecordBatch | src/storage/record_batch.cpp:62-89 | the batch carries the stamped records, their count, the byte size and the checksum of the payload |
| RecordBatches.EncodeRecordBatch | src/storage/record_batch.cpp:91-120 | writes the batch of the base offset and the records: count, size and checksum in the header are computed again and those of the argument ignored; oversized strings and payloads are refused |
| RecordBatches.PeekRecordBatchBytes | src/storage/record_batch.cpp:123-146 | the declared size of a batch, or an error for a short or impossible header |
| RecordBatches.DecodeRecordBatch | src/storage/record_batch.cpp:148-209 | decodes the batch at the front of any bytes, with every malformed input mapped to its error |
| RecordBatches.BatchRoundTrip | src/storage/record_batch.cpp:62-209 | decoding an encoded batch followed by any bytes returns the batch, its checksums and its length |
| RecordBatches.BatchExact | src/storage/record_batch.cpp:148-209 | every accepted batch with a non-negative base offset re-encodes to the bytes it was read from |
| RecordBatches.BatchSelfDelimiting | src/storage/record_batch.cpp:91-209 | two batches that start the same bytes are the same batch, so a segment file parses in only one way |
| Layout.BatchLayout | src/storage/record_batch.cpp:91-120 | where each field of a stored batch is and how it is to be read: magic, base offset, count, its own size, the checksum of its payload, its first record |
| RecordBatches.DamagedBatchRejected | src/storage/record_batch.cpp:173-177 | damage within 32 consecutive bits of the payload of an encoded batch of any length makes DecodeRecordBatch report corruption |
| RecordBatches.StampingKeepsEncoding | src/storage/record_batch.cpp:36-57 | the checksums put into records change nothing about their encoding or size |
| Segments.Segment.Append | src/storage/segment.cpp:35-55 | the file grows by exactly the encoded batch, whose position is returned; a refusal leaves the file alone |
| Segments.Segment.Read | src/storage/segment.cpp:57-95 | reads the batch at a position, checking the declared size against the budget and the end of the file |
| Segments.Segment.Truncate | src/storage/segment.cpp:100-111 | the file is cut to the size or extended with zeros, and writing goes on there |
| Segments.BatchAtPosition | src/storage/segment.cpp:57-95 | reading where batch i of a file of whole batches starts gives that batch exactly when the budget allows it |
| OffsetIndexes.UpperBound | src/storage/offset_index.cpp:40-50 | the binary search returns the first entry beyond the target of a sorted index |
| OffsetIndexes.OffsetIndex.FindFloor | src/storage/offset_index.cpp:40-50 | returns the last entry at or before an offset, or NotFound |
| OffsetIndexes.OffsetIndex.MaybeAppend | src/storage/offset_index.cpp:53-76 | keeps entries sorted; adds one only when the interval has been written since the last, refusing entries out of order |
| LogLayout.IndexExtends | src/storage/offset_index.cpp:53-76 | indexing one more batch of a chain never fails and yields the sparse index of the longer chain |
| LogLayout.FloorEntry | src/storage/offset_index.cpp:40-76 | the floor entry of any offset is that of a batch at or before its own, less than one interval away |
| LogLayout.EntriesApart | src/storage/offset_index.cpp:53-76 | no two indexed batches start less than the interval apart |
| LogStates.ReadRefinesFlatLog | src/storage/commit_log.cpp:150-196 | in every represented state a read returns the one batch holding the offset exactly when all batches from the floor entry on fit the budget, and the record is that of the flat log |
| LogStates.ReadFindsRecord | src/storage/commit_log.cpp:150-196 | with a budget that holds the largest batch every offset below next_offset is readable |
| LogStates.IndexNeverHurts | src/storage/commit_log.cpp:172-193 | whatever a scan from the start of the segment can read, the indexed read returns as the same batch |
| LogStates.ReadCostBounded | src/storage/commit_log.cpp:172-193 | an indexed read makes at most 1 + (interval - 1) / 52 segment reads |
| LogStates.AppendRefinesFlatLog | src/storage/commit_log.cpp:103-147 | an accepted append adds exactly its stamped records at the end of the flat log and keeps the layout; indexing never fails; a refusal changes nothing |
| LogStates.NextCountsRecords | src/storage/commit_log.cpp:243-246 | next_offset is the number of records in the log |
| LogRefusals.OpensIff | src/storage/commit_log.cpp:75-100 | an empty directory opens to an empty log if and only if a segment can hold a batch header; with smaller segments nothing opens and no file is touched |
| LogRefusals.ClosedRefuses | src/storage/commit_log.cpp:103-155 | a closed log takes nothing, gives nothing and stays as it is |
| LogRefusals.AppendRefusedIff | src/storage/commit_log.cpp:103-120 | an append is refused, changing nothing, if and only if it is empty, has more records than there are offsets left, or records that cannot be encoded |
| LogRefusals.ReadRefusedIff | src/storage/commit_log.cpp:150-163 | a read finds nothing if and only if its offset is not below the end, and is otherwise refused only for a negative offset or too small a budget |
| LogRecovery.OpenTwice | src/storage/commit_log.cpp:253-370 | on any files whatever, if Open succeeds then opening what it left changes nothing, in either recovery mode |
| LogRecovery.StrictOpenLosesNoBatch | src/storage/commit_log.cpp:306-370 | on arbitrary bytes a strict Open either shortens no file, or leaves sealed segments alone and cuts off only a tail shorter than a header or starting with a header that declares more bytes than remain |
| LogRecovery.CrashKeepsWholeBatches | src/storage/commit_log.cpp:253-370 | for every byte at which the last segment is cut, both modes open to the same state: exactly the longest prefix of whole batches, indexed as Append indexes, next_offset its record count |
| LogRecovery.WholeBatchesMaximal | src/storage/commit_log.cpp:306-370 | the surviving batches end before the cut and the next one would not |
| LogDamage.DamagedLogOpens | src/storage/commit_log.cpp:306-370 | damage within 32 bits of the payload of any batch of any segment of a log: Open without strict recovery succeeds and cuts that file to exactly the batches before the damaged one, all other files whole; with strict recovery it answers corruption and leaves every file as it is |
| LogDamage.LenientOpenNeverCorrupt | src/storage/commit_log.cpp:321-342 | without strict recovery Open never answers corruption, whatever the bytes of the files |
| LogRuns.RunsRefineFlatLog | src/storage/commit_log.cpp:103-370 | every run of appends, crashes and reopenings in any mode is a run of a flat sequence of records that appends extend and crashes cut |
| LogRuns.ReachableReads | src/storage/commit_log.cpp:150-196 | in every reachable state each offset reads back as the record of the flat log |
| LogRolling.AppendRollsIff | src/storage/commit_log.cpp:122-146 | an append opens a new segment, answering with position 0 there, if and only if the last one is not empty and the batch would make it longer than segment_bytes; otherwise it answers with the old end of the file |
| LogRolling.RunCompact | src/storage/commit_log.cpp:122-125 | in every run, crashes included, a segment of two or more batches is no longer than segment_bytes, and no sealed segment is empty |
| LogRolling.RunFull | src/storage/commit_log.cpp:122-125 | in every run between crashes, every sealed segment and the first batch of the next one together exceed segment_bytes |
| CommitLogs.CommitLog.FindSegmentIndex | src/storage/commit_log.cpp:373-387 | the binary search finds the last segment starting at or before the offset |
| CommitLogs.CommitLog.Read | src/storage/commit_log.cpp:150-196 | the read loop over the segment objects computes `LogStates.Read` of their contents |
| CommitLogs.CommitLog.Append | src/storage/commit_log.cpp:103-147 | rolling, writing and indexing the segment objects steps their contents as `LogStates.Append` does |
| CommitLogs.CommitLog.RollSegment | src/storage/commit_log.cpp:390-400 | adds a fresh empty segment and index at the end, named after the next offset |
| CommitLogs.CommitLog.Close | src/storage/commit_log.cpp:220-241 | a closed log refuses reads and appends; closing twice is harmless |
| CommitLogs.RecoverSegment | src/storage/commit_log.cpp:306-370 | the position-advancing loop re-parses the file, truncates it where recovery stops and rebuilds the index, or fails leaving the file as it was |
| CommitLogs.LoadSegments | src/storage/commit_log.cpp:253-303 | recovers the sorted segment files one after another into one log |
| CommitLogs.OpenCommitLog | src/storage/commit_log.cpp:75-100 | opening computes `LogRecovery.Open` of the directory and returns a fresh valid log |
| PartitionLogs.ReadIsReadLog | src/storage/commit_log.cpp:150-196 | reading the commit log is reading the list of its batches from the batch its index leads to, errors included |
| PartitionLogs.AppendIsAppendTo | src/storage/commit_log.cpp:103-147 | appending to the commit log is appending one batch to that list, errors and base offset included |
| PartitionLogs.CrashCutsShort | src/storage/commit_log.cpp:253-370 | a crash of the commit log at whatever byte and opening it in either mode leave a prefix of that list |
| Decimal.ParseNumber | src/storage/commit_log.cpp:15-35 | the digit loop accepts exactly the strings of digits up to the limit: the guard before each digit is exact |
| Decimal.NumberOfPrinted | src/broker/group_coordinator.cpp:132-134 | printing a number and reading the digits gives the number back |
| Decimal.PrintedOfNumber | src/broker/offset_store.cpp:44-73 | digits without leading zeros are what their number prints as |
| FileNames.ParseBaseOffset | src/storage/commit_log.cpp:15-35 | parses a file stem as a base offset within 63 bits, or not at all |
| FileNames.SegmentNameRoundTrip | src/storage/commit_log.cpp:404-408 | every zero-padded segment name parses to its base offset, so no two segments share a file |
| RequestCodec.EncodeProduceBody | src/protocol/codec.cpp:208-236 | a Produce body is written record by record; an empty or oversized list or string is refused |
| RequestCodec.DecodeProduceBody | src/protocol/codec.cpp:398-433 | reads a Produce body field by field, refusing zero records and anything left over |
| Wire.BodyReader.ReadUInt | src/protocol/codec.cpp:59-67 | takes a big-endian number off the front of what is left, or fails and consumes nothing |
| Wire.BodyReader.ReadString | src/protocol/codec.cpp:69-82 | takes a length-prefixed string off the front of what is left, or fails |
| RequestCodec.BodyRoundTrip | src/protocol/codec.cpp:208-728 | every encodable body of every one of the eleven requests decodes to itself, produce records without their retry metadata |
| Frames.RequestRoundTrip | src/protocol/codec.cpp:1676-1741 | every encodable request decodes to what was encoded, with its key, version and request id |
| RequestExactness.RequestExact | src/protocol/codec.cpp:1530-1741 | every frame that decodes is, to the byte, the frame the encoder writes for the decoded request, unless it commits a negative offset, which only the decoder lets pass |
| RequestExactness.NegativeCommitDecodes | src/protocol/codec.cpp:500-528 | every frame that commits a negative offset decodes and cannot be encoded |
| Layout.FrameLayout | src/protocol/codec.cpp:1676-1697 | where each field of a request frame is and how it is to be read, with the number of each kind of request |
| Frames.FrameDecoder.Push | src/protocol/codec.cpp:1872-1901 | one call delivers the whole frames available and keeps the rest; a bad frame loses the requests decoded before it in the same call |
| Frames.FrameDecoder.Clear | src/protocol/codec.cpp:1903-1903 | forgets the buffered bytes |
| Frames.DrainInTwo | src/protocol/codec.cpp:1872-1901 | draining a longer buffer is draining its front and then the remainder with the rest |
| Frames.ChunkingDoesNotMatter | src/protocol/codec.cpp:1872-1901 | for any bytes and any split into chunks, all pushes succeed exactly when one push of the whole would, and then deliver the same requests and leave the same buffer; otherwise the error is the same |
| Frames.BadFrameLoses | src/protocol/codec.cpp:1872-1901 | when the stream holds a bad frame, the pushes of the chunks before the one that completes it deliver all they hold, and lost are exactly the requests decoded in the push that fails: nothing is lost if and only if there are none |
| Frames.CutDecidesDelivery | src/protocol/codec.cpp:1872-1901 | the same bytes cut in two ways: a request before a bad header is delivered when the header comes in a chunk of its own, and lost when it comes in the same one |
| Frames.StreamDelivered | src/protocol/codec.cpp:1676-1901 | any list of encodable requests cut into chunks anywhere comes out in order, a trailing partial frame staying buffered |
| Frames.PartialFrameIncomplete | src/protocol/codec.cpp:1872-1901 | a proper prefix of a frame is kept, not rejected |
| Frames.FeedChunks | src/net/tcp_connection.cpp:64-97 | the read loop pushes chunks until the first error |
| RetryCodec.FetchRoundTrip | src/protocol/codec.cpp:841-870 | a Fetch response of either version is read back as sent, apart from metadata version 1 does not carry; the record-count guard never rejects an encoded response |
| RetryCodec.FetchFrameRoundTrip | src/protocol/codec.cpp:1743-1866 | the whole Fetch response frame is read back |
| RetryCodec.RetryRecordRoundTrip | src/broker/retry_scheduler.cpp:19-57 | a stored retry record decodes to the record it was made from, also after the log has stamped it |
| RetryCodec.EnvelopeEncodableIff | src/broker/retry_scheduler.cpp:19-34 | a message can be stored for a retry if and only if its key, value, topic and reason leave 91 bytes of a frame free and its metadata names an ordinary topic |
| EnvelopeExactness.EnvelopeExact | src/broker/retry_scheduler.cpp:37-57 | a stored value that decodes is the magic and the frame of a Fetch response with that one record at offset 0 below a high watermark of 1; if request id and message are empty it is exactly what the encoder writes |
| RetryCodec.ProducedNotRetriedIff | src/broker/retry_scheduler.cpp:19-34 | a message can be sent in a Produce request and yet not be stored for a retry exactly when topic, key and value leave 44 bytes of a frame free but not 91 and the reason of the nack |
| Topics.OriginalOfInternal | src/broker/topic_manager.cpp:23-30 | stripping the prefix of an internal topic name gives the original name back, and the two prefixes exclude each other |
| Topics.SafeNameNotInternal | src/broker/topic_manager.cpp:23-41 | a valid original name is never itself internal |
| Topics.ProduceFrameSize | src/protocol/codec.cpp:93-98 | the records of a decodable Produce frame take up no more than a frame |
| Topics.ProducedBatchFits | include/logmq/broker/retry_scheduler.h:28-30 | every batch a decodable Produce frame leads to fits the retry budget and can be encoded |
| Topics.EnvelopeBatchFits | include/logmq/broker/retry_scheduler.h:28-30 | every envelope batch fits the retry budget and can be encoded |
| Broker.BrokerService.HandleCreateTopic | src/broker/broker_service.cpp:398-413 | creates the topic or refuses an internal name, a bad name or a different partition count |
| Broker.BrokerService.HandleProduce | src/broker/broker_service.cpp:271-315 | appends one stamped batch to the selected partition; every refusal has its code; a failed flush reports an error after the append |
| Broker.BrokerService.HandleNack | src/broker/broker_service.cpp:203-269 | checks in the source order, counts one more attempt, delivers the envelope, and publishes exactly the appended retry to the scheduler even if the flush then fails |
| Broker.BrokerService.HandleFetch | src/broker/broker_service.cpp:317-382 | answers from the log up to the high watermark, which for a retry topic is the visible end |
| NackProofs.BudgetHolds | src/broker/broker_service.cpp:223-224 | no read of a log within the retry budget fails for size, whatever batches the index makes it pass |
| NackProofs.NackFindsRecord | src/broker/broker_service.cpp:203-229 | a nack gets past the read if and only if the record exists, is no dead letter and is visible if it is a retry, and then works on exactly that record |
| NackProofs.NackSucceedsIff | src/broker/broker_service.cpp:203-268 | a nack succeeds if and only if its record can be retried, the counted message fits an envelope and the destination log has an offset left; a refused one changes no topic |
| Refusals.NackRefusedIff | src/broker/broker_service.cpp:203-269 | a nack is refused as unknown exactly without the partition, as out of range exactly without the offset, as invalid exactly for dead letters and records that are there and cannot be retried, and never with an internal error |
| NackProofs.NackKeepsFormed | src/broker/broker_service.cpp:230-262 | whatever a nack answers, every log keeps its form (topics, partitions, counts, sizes) and only grows |
| NackProofs.NackKeepsRooted | src/broker/broker_service.cpp:230-262 | after a nack every internal record still carries the key, value and timestamp of its original |
| NackProofs.NackCounts | src/broker/broker_service.cpp:244-268 | a successful nack counts one more attempt, goes to the retry topic up to the maximum and to the dead-letter topic exactly after it, with the deadline computed from the clock |
| NackProofs.NackStores | src/broker/broker_service.cpp:253-268 | the offset a nack answers with holds the record it made |
| BrokerLogs.NackTouchesOneLog | src/broker/broker_service.cpp:248-268 | a nack adds one record to one internal log, at the offset it answers with, and touches no other log; a refused one adds nothing |
| BrokerLogs.ProduceStores | src/broker/broker_service.cpp:271-315 | a produce adds its records in order as one batch at the base offset it answers with, each with the timestamp, key and value it was sent with and their checksum, and touches no other log; a refused one changes nothing |
| ProduceFetch.ProducedIsFetched | src/broker/broker_service.cpp:271-382 | end to end: once a produce is accepted, fetching any offset it got, in any version and from wherever the index leads, answers the whole batch message by message as it was sent, without retry metadata, if and only if the batches the read passes fit max_bytes |
| ProduceFetch.ProduceRefusedIff | src/broker/broker_service.cpp:271-315 | a Produce frame is refused as unknown if and only if its topic is ordinary and has no such partition, as invalid if and only if it is internal or has too few offsets left, and never otherwise |
| NackProofs.NackChainEnds | src/broker/broker_service.cpp:203-269 | nacking a message, then its retry, and so on: link i has count i + 1, all go to the retry topic but exactly the one after the last retry, which is dead-lettered, and no chain has more than max_retries + 1 nacks |
| RetryLineage.ProduceKeeps | src/broker/broker_service.cpp:271-315 | produce keeps the form and the lineage of all logs and only appends |
| RetryLineage.CreateKeeps | src/broker/broker_service.cpp:398-413 | creating a topic keeps the form and the lineage of all logs |
| Refusals.TopicCreatedIff | src/broker/broker_service.cpp:398-413 | a topic can be created if and only if its name is a safe one, it gets partitions, and no topic of that name has another number of them; nothing else changes |
| FetchProofs.FetchedIsSlice | src/broker/broker_service.cpp:334-381 | the records of an answer are consecutive records of the log and include the one asked for |
| FetchProofs.EmptyAnswerIff | src/broker/broker_service.cpp:334-352 | the high watermark is the visible end of a retry topic and the log end of every other, dead-letter topics included; a successful answer is empty if and only if the offset is at or past it, and a fetch there succeeds if and only if it is not past the log end |
| FetchProofs.OrdinaryFetchIff | src/broker/broker_service.cpp:355-362 | an ordinary topic answers if and only if the batches the read passes fit max_bytes |
| FetchProofs.InternalFetchIff | src/broker/broker_service.cpp:353-376 | an internal topic answers with the one record asked for, as version 2 or 1 shows it, under its own high watermark, if and only if 52 bytes and the key and value of the original message fit max_bytes |
| FetchProofs.FetchNeverInternal | src/broker/broker_service.cpp:317-382 | no fetch from logs the broker wrote ends in an internal error |
| FetchProofs.InternalFetchIsOriginal | src/broker/broker_service.cpp:353-381 | what is fetched from a retry or dead-letter topic is the original message |
| FetchProofs.FetchStaysVisible | src/broker/broker_service.cpp:334-352 | consumers of a retry topic never see past the visible end |
| FetchProofs.DeadLetterFetchIff | src/broker/broker_service.cpp:334-381 | every dead letter up to the log end is answered, alone, with key, value and timestamp of its message, if and only if 52 bytes and that message fit max_bytes, whatever the scheduler shows |
| Refusals.FetchRefusedIff | src/broker/broker_service.cpp:317-382 | which refused fetch gets which code, and that none is an internal error |
| RetrySchedulers.AdvanceShows | src/broker/retry_scheduler.cpp:119-128 | the inner loop moves the visible end to the longest prefix of what has been released |
| RetrySchedulers.SettledUnique | src/broker/retry_scheduler.cpp:119-128 | the order in which equal deadlines are popped cannot be observed |
| RetrySchedulers.RetryScheduler.MakeDueVisible | src/broker/retry_scheduler.cpp:119-128 | releases exactly the tasks due at the clock reading; every partition then shows the longest released prefix |
| RetrySchedulers.RetryScheduler.Schedule | src/broker/retry_scheduler.cpp:105-111 | queues one task and settles at a clock reading |
| RetrySchedulers.RetryScheduler.VisibleEnd | src/broker/retry_scheduler.cpp:113-117 | the visible end of a partition, zero if it was never touched |
| RetryRuns.StepKeepsInvariant | src/broker/retry_scheduler.cpp:105-128 | appending, publishing, ticking under any clock, fetching and restarting keep every retry record in exactly one of the visible prefix, the ready set, the queue and the one unpublished append |
| RetryRuns.EndIsLongestReleasedPrefix | src/broker/retry_scheduler.cpp:119-128 | everything before the visible end is released and the record at it is still waiting |
| RetryRuns.VisibleEndNeverDecreases | src/broker/retry_scheduler.cpp:119-128 | short of a restart nothing once visible is hidden again |
| RetryRuns.EverythingBecomesVisible | src/broker/retry_scheduler.cpp:119-128 | once all is published and due, one tick shows the whole log |
| RetryRuns.RunKeepsInvariant | src/broker/retry_scheduler.cpp:59-128 | the invariant holds in every state of every run |
| RetryRuns.RunVisibleEndMonotone | src/broker/retry_scheduler.cpp:105-128 | between restarts the visible end only grows |
| RetryRestarts.RestartEquivalent | src/broker/retry_scheduler.cpp:59-103 | with a clock that has not run backwards the rebuilt scheduler shows what an uninterrupted one would of the surviving log |
| RetryRestarts.RestartShowsSameIffDue | src/broker/retry_scheduler.cpp:59-103 | under any clock a restart shows the same surviving prefix if and only if every deadline in it has passed at the reading the restart takes |
| RetryRestarts.ClockSetBackHidesRecord | src/broker/retry_scheduler.cpp:119-121 | a run of one nack, appended and published at 10: a restart at 5 hides its record, carrying on at 5 would not |
| RetryStart.ScanPartition | src/broker/retry_scheduler.cpp:77-97 | the offset loop accepts exactly the logs of single well-formed envelopes and collects one task for each retry record |
| RetryStart.ScanInternalTopics | src/broker/retry_scheduler.cpp:66-99 | the startup scan succeeds exactly when every internal log is acceptable, whatever the order of topics, and then has one task for each retry record |
| RetryStart.Start | src/broker/retry_scheduler.cpp:59-103 | does nothing when running, refuses once closed, otherwise succeeds exactly when the logs are acceptable and leaves queue and visible ends rebuilt from the retry logs at one clock reading, whatever they were before |
| StartAcceptance.StartAcceptsIff | src/broker/retry_scheduler.cpp:66-99 | on any logs without empty batches, whoever wrote them, Start accepts if and only if every internal topic has its original with as many partitions, at most 2^31, and holds only single records that name that topic and partition and have a deadline exactly in a retry topic, in batches within the budget |
| BrokerRestarts.WrittenLogsStart | src/broker/retry_scheduler.cpp:59-103 | any prefixes of logs the broker wrote are accepted by Start exactly when the partition ids of internal topics survive the cast to a signed number and no retry left has the deadline 0 |
| BrokerRestarts.NackKeepsDated | src/broker/broker_service.cpp:244-262 | a nack stores the deadline 0 if and only if it is accepted, is not the one after the last retry, and runs with the clock at the epoch and no delay |
| BrokerRestarts.NackThenStart | src/broker/retry_scheduler.cpp:66-91 | after a nack Start accepts the logs if and only if it did before and, should the nack be accepted, the partition ids of its topic fit and it dead-letters or its deadline is positive, all of which is known before the nack |
| BrokerWitnesses.EpochDeadlineRefused | src/broker/retry_scheduler.cpp:86-91 | a run that fails: clock at the epoch, no delay, a nack answered with success, and a Start that accepted the logs before it refuses them after it |
| BrokerWitnesses.ManyPartitionsRefused | src/broker/retry_scheduler.cpp:72-80 | a run that fails: a topic of more than 2^31 partitions, one message, one nack, and Start refuses well-formed logs |
| BrokerWitnesses.LostOriginal | src/broker/broker_service.cpp:230-262 | a run and a cut that fail: the message is lost, its retry survives, and the lineage that held is broken |
| BrokerWitnesses.LargeMessageRefused | src/broker/broker_service.cpp:248-252 | a run that fails, for every message in the gap: its Produce request can be sent, the broker stores it, and nacking it is refused as invalid and changes nothing |
| BrokerStorage.CrashIsRestart | src/storage/commit_log.cpp:253-370 | when every partition log is kept in a commit log, a crash of all of them at any byte and opening them again leave exactly what a restart of the broker assumes: the same topics, each log cut short by whole batches |
| BrokerRestarts.CutKeepsRootedIff | src/broker/broker_service.cpp:230-262 | after a restart lineage holds if and only if every surviving retry record still has its original |
| BrokerRuns.StepKeepsRooted | src/broker/broker_service.cpp:203-315 | no step but such a restart can break lineage |
| BrokerRuns.RunsRefineRetryRuns | src/broker/broker_service.cpp:203-262 | every run of the broker is, state by state and event by event, a run of the retry protocol on the deadlines its retry logs hold, also when ticks, fetches, other requests or a crash come between the append and the publication of a nack |
| BrokerRuns.ReachableVisibility | src/broker/broker_service.cpp:211-262 | in every reachable broker state each retry record is in exactly one place and no visible end exceeds its log |
| BrokerRuns.RunVisibleEndMonotone | src/broker/broker_service.cpp:211-262 | in every run, between restarts, what consumers of a retry partition can see only grows |
| BrokerRuns.RunKeepsFormed | src/broker/broker_service.cpp:203-315 | in every run internal logs hold single envelopes of their own topic and partition, counting 1 to max_retries, dead-letter logs max_retries + 1 without a deadline |
| BrokerRuns.RunKeepsLineage | src/broker/broker_service.cpp:203-315 | in every run whose restarts lose no original, every record ever in a retry or dead-letter log is a copy of its original |
| BrokerRuns.RunChainEnds | src/broker/broker_service.cpp:203-269 | in every run, nacks of a message, of the retry made of it, and so on, with anything in between, count up by one, go to the retry topic of the message and end in its dead-letter topic after exactly max_retries retries |
| BrokerRuns.ReachableRestart | src/broker/retry_scheduler.cpp:59-103 | any run can be interrupted at any moment: Start accepts what survives if and only if partition ids fit and no deadline left is 0, and none is 0 if every nack of the run had a positive one |
| BrokerRuns.RestartChangesNothing | src/broker/retry_scheduler.cpp:59-128 | in every run with a steady clock, restarting shows exactly what carrying on would have shown of what is left, also when the restart comes between the append and the publication of a nack |
| Consumers.Deliver | src/client/client.cpp:420-427 | the record loop delivers what is at or beyond the cursor and advances it |
| Consumers.FreshFromCursor | src/client/client.cpp:420-427 | of an answer starting at or before the cursor exactly the records from the cursor on are delivered under their own offsets |
| Consumers.Consumer.PollRound | src/client/client.cpp:404-429 | one round over all assignments and both topics; a failed request leaves every cursor where it was |
| Consumers.RoundPollsEach | src/client/client.cpp:404-429 | a successful round polls the own and the retry topic of every assignment in order, moves each cursor by the answer to its own request, and outputs what these deliver |
| PollRounds.RoundSucceedsIff | src/client/client.cpp:404-419 | a round succeeds if and only if the request for every own topic is answered and, for ordinary topics, every retry topic answers or is missing; which version and which topic each request names |
| PollRounds.RoundWithoutRetryTopic | src/client/client.cpp:404-429 | a round over a topic without a retry topic succeeds: retry cursors stay, every own cursor delivers the slice it moves over and moves on if there is anything |
| PollRounds.RoundWithoutTopic | src/client/client.cpp:404-419 | a round over a topic that is not there fails as unknown |
| Consumers.RoundDelivers | src/client/client.cpp:412-427 | one answered request delivers the slice of the log its cursor moved over, within what is visible |
| Consumers.PollingReconstructsLog | src/client/client.cpp:404-429 | from any starting offset, mid-batch included, repeated polling of a growing log delivers exactly the slice between first and last cursor: no gap, duplicate or reordering |
| Consumers.RoundProgresses | src/client/client.cpp:412-427 | a cursor short of what is visible moves on with every answered round |
| ConsumerProgress.PollingReachesEnd | src/client/client.cpp:404-429 | while the broker stays as it is and refuses no offset short of the high watermark, finitely many rounds take any cursor exactly there, wherever the index leads the reads |
| ConsumerProgress.OrdinaryReachesEnd | src/client/client.cpp:404-429 | polling an ordinary partition whose batches fit max_bytes delivers the whole log from any offset on |
| ConsumerProgress.RetryReachesEnd | src/client/client.cpp:404-429 | polling the retry topic delivers all that is visible of it if the original messages fit max_bytes |
| ConsumerProgress.DeadLettersReachEnd | src/client/client.cpp:404-429 | polling a dead-letter topic delivers all of it if the original messages fit max_bytes |
| SortedKeys.LessTotal | include/logmq/broker/group_coordinator.h:51-51 | the map order on ids compares any two of them |
| PartitionRanges.NoWrap | src/broker/group_coordinator.cpp:328-334 | no 32-bit intermediate of the range arithmetic wraps |
| PartitionRanges.BlocksCover | src/broker/group_coordinator.cpp:320-345 | the ranges in member order, one after another, are exactly the partitions from 0 up |
| PartitionRanges.BlocksBalanced | src/broker/group_coordinator.cpp:328-334 | range sizes differ by at most one, larger ones first |
| PartitionRanges.BlocksDisjoint | src/broker/group_coordinator.cpp:328-343 | no partition is in two ranges |
| GroupCoordinators.AssignLocked | src/broker/group_coordinator.cpp:320-345 | walking the members in order makes the least id the leader and gives each the range of its rank |
| GroupCoordinators.GroupCoordinator.JoinGroup | src/broker/group_coordinator.cpp:84-165 | joins as the source does, with its special paths: the group left behind for an unknown member, the internal error at the last generation |
| GroupCoordinators.GroupCoordinator.SyncGroup | src/broker/group_coordinator.cpp:167-208 | answers with the stored assignment only for a known member and the current generation |
| GroupCoordinators.GroupCoordinator.Heartbeat | src/broker/group_coordinator.cpp:210-249 | refreshes the sign of life under the same checks |
| GroupCoordinators.GroupCoordinator.LeaveGroup | src/broker/group_coordinator.cpp:251-297 | removes the member, opens a new generation, and erases the group with its last member |
| GroupCoordinators.GroupCoordinator.ExpireTimedOutMembers | src/broker/group_coordinator.cpp:347-374 | the erasing iteration keeps exactly the members heard of in time, reassigns changed groups and erases emptied ones |
| GroupRuns.StepKeepsSane | src/broker/group_coordinator.cpp:84-374 | every request and scan keeps every group below the last generation assigned in ranges, led by its least id, its ids drawn from the sequence and its sequence bounded by its generation |
| GroupRuns.StepFenced | src/broker/group_coordinator.cpp:144-156 | in one step of a surviving group the generation moves by exactly one if the membership changed and not at all otherwise |
| GroupRuns.RunFenced | src/broker/group_coordinator.cpp:112-374 | any two moments in one life of a group: generation and sequence never go back, one generation is one membership with one assignment, newcomers have unused ids |
| GroupRuns.SyncsOfOneGenerationAgree | src/broker/group_coordinator.cpp:182-208 | all successful SyncGroup replies for one generation come from a single assignment; different members never share a partition |
| GroupRuns.MemberIdsNeverReissued | src/broker/group_coordinator.cpp:132-139 | a new member never gets an id anybody had earlier in the same life of the group |
| GroupRuns.NewMembersDiffer | src/broker/group_coordinator.cpp:132-139 | two members that join without an id get different ids |
| GroupRuns.StaleGenerationRefused | src/broker/group_coordinator.cpp:194-197 | after a membership change SyncGroup and Heartbeat refuse every generation from before |
| GroupRuns.ReachableAssignment | src/broker/group_coordinator.cpp:320-345 | in every reachable group with members every partition has exactly one owner, shares differ by at most one and the least id leads |
| GroupRuns.JoinAtLastGeneration | src/broker/group_coordinator.cpp:149-156 | a newcomer opens a new generation if and only if the last one is not reached; there it is refused and stays enrolled without partitions |
| GroupRuns.ChangeOpensGenerationIff | src/broker/group_coordinator.cpp:144-374 | whatever changes the members of a surviving group, join, leave or scan, opens the next generation if and only if the last one is not reached, and otherwise leaves the generation alone |
| GroupRuns.LastGenerationRun | src/broker/group_coordinator.cpp:144-156 | a run of joins that reaches the last generation, and one newcomer more, refused and enrolled; GenerationReached gives such a run for every generation |
| GroupRuns.HeartbeatKeepsMember | src/broker/group_coordinator.cpp:240-374 | a member whose heartbeat was accepted survives a scan if and only if no more than the session timeout has passed |
| GroupRuns.EmptyGroupAppearsIff | src/broker/group_coordinator.cpp:112-144 | a request or scan leaves an empty group under a new name if and only if it is a well-formed join that names a member; the join itself is refused |
| GroupRuns.EmptyGroupChangesIff | src/broker/group_coordinator.cpp:112-144 | an empty group is never removed, and changes if and only if a newcomer joins it for the topic and partition count it was created with: every other topic is kept out |
| GroupRuns.ReachableEmptyGroups | src/broker/group_coordinator.cpp:112-156 | below the last generation the groups without members are exactly those of generation 0 |
| GroupMembers.JoinerComes | src/broker/group_coordinator.cpp:112-165 | the reply to an accepted join tells the generation and leader the group then has; the member it names, new exactly if the request named nobody, was heard from just now, and everybody else stays as they were |
| GroupMembers.JoinThenSync | src/broker/group_coordinator.cpp:84-208 | whoever has just joined is answered by SyncGroup and Heartbeat at once in the generation it was told, with a share of the topic it joined for |
| GroupMembers.JoinRefusedIff | src/broker/group_coordinator.cpp:84-156 | which refused join gets which code |
| GroupMembers.LeaverGoes | src/broker/group_coordinator.cpp:251-297 | an accepted leave takes out exactly the member it names and keeps the signs of life of the others; the group goes if and only if nobody else was in it, and is otherwise in the generation of the reply, the next one |
| GroupMembers.LeaverRefused | src/broker/group_coordinator.cpp:167-297 | afterwards SyncGroup and Heartbeat do not know the leaver, and accept every other member in the generation of the reply |
| GroupMembers.LeaveRefusedIff | src/broker/group_coordinator.cpp:251-297 | which refused leave gets which code; at the last generation the member goes although the leave is refused |
| GroupMembers.SignOfLife | src/broker/group_coordinator.cpp:167-249 | SyncGroup and Heartbeat accept exactly the members of the current generation, refuse the rest with their codes, and set the last sign of life of the one who asks and of nobody else |
| GroupMembers.ScanKeepsHeard | src/broker/group_coordinator.cpp:347-374 | a scan keeps of every group exactly the members heard in time, removes it if and only if it had members and none was, and leaves it alone if all were |
| FileNames.ParseOffsetFilename | src/broker/offset_store.cpp:44-73 | takes the topic and partition out of a file name, or nothing |
| FileNames.OffsetNameRoundTrip | src/broker/offset_store.cpp:44-73 | a printed name is read back as its topic and partition, dashes and dots included, exactly as long as the partition fits 32 bits |
| FileNames.OffsetNameCanonical | src/broker/offset_store.cpp:44-73 | a name that is read back is the printed one unless its partition has leading zeros |
| FileNames.TempNameIgnored | src/broker/offset_store.cpp:253-258 | temporary files are never taken for committed offsets |
| OffsetStores.BodyForItsKey | src/broker/offset_store.cpp:135-165 | what Commit writes into a file, Load reads out of it, and only under the name of the same group, topic and partition |
| OffsetStores.FilesStayInside | src/broker/offset_store.cpp:238-258 | group directories and offset files are single path components, so nothing is written outside the directory of offsets |
| OffsetStores.KeptIsLoaded | src/broker/offset_store.cpp:92-182 | from a disk that holds a map of offsets Load reads that map and nothing else |
| OffsetStores.CommitSurvivesCrash | src/broker/offset_store.cpp:260-289 | a commit interrupted anywhere, even inside its temporary file, leaves a disk from which Load reads the offsets before it or, past the rename, after it |
| OffsetStores.OffsetStore.Load | src/broker/offset_store.cpp:92-182 | succeeds exactly when all group names and offset files are in order; a failure leaves memory as it was |
| OffsetStores.OffsetStore.Commit | src/broker/offset_store.cpp:184-212 | disk and memory change together or not at all |
| OffsetStores.OffsetStore.Fetch | src/broker/offset_store.cpp:214-236 | the committed offset if there is one, or an error for malformed arguments |
| Buffers.Buffer.Append | src/net/buffer.cpp:18-20 | adds bytes behind the readable ones |
| Buffers.Buffer.Consume | src/net/buffer.cpp:26-29 | drops that many readable bytes, no more than there are |
| Buffers.Buffer.CompactIfNeeded | src/net/buffer.cpp:72-84 | compaction is invisible and keeps the consumed front no longer than what follows |
| Buffers.Buffer.WriteToFd | src/net/buffer.cpp:54-70 | for every pattern of short, empty and failing writes: what goes out is the front of what was readable, the rest stays, and the result is a failure exactly when a write failed before the socket blocked or took all |
| Buffers.FlushStops | src/net/buffer.cpp:54-70 | a flush takes what the answers of the socket add up to, as far as there are bytes, stops at the first answer that takes nothing, and fails if and only if bytes are left and that answer is a failure |
| TcpConnections.TcpConnection.SubmitNext | src/net/tcp_connection.cpp:129-176 | at most one request in flight; a refused submission is answered with an error and closes |
| TcpConnections.TcpConnection.OnResponse | src/net/tcp_connection.cpp:178-185 | the response of the request in flight is queued behind the earlier ones, closing or not, and the next request is submitted |
| TcpConnections.TcpConnection.HandleRead | src/net/tcp_connection.cpp:64-97 | decodes what arrives; the connection breaks exactly when the bytes received contain a bad frame, and then answers with one error; otherwise decoded = answered + in flight + waiting, and it stays open exactly until the peer is gone |
| TcpConnections.TcpConnection.HandleWrite | src/net/tcp_connection.cpp:99-111 | writes what the socket takes; the connection stays open if and only if no write failed and it is not a closing one with all its output gone |
| TcpConnections.TcpConnection.Shutdown | src/net/tcp_connection.cpp:42-52 | closes at once if nothing is left to write |
| TcpConnections.TcpConnection.QueueErrorAndClose | src/net/tcp_connection.cpp:187-198 | drops what waits, sends one error and submits nothing more |
| TcpConnections.RepliesInOrder | src/net/tcp_connection.cpp:64-185 | a client on an unbroken connection has been answered for a prefix of its requests, in order, one frame each, and has received a prefix of those frames |

## Left out

- Files are byte sequences: fsync, errno, partial pwrite, and file sizes beyond 63 bits are not modelled; a crash cuts the tail of the last segment file.
- The on-disk copy of the index (OffsetIndex::Rewrite) is never read back by the source and is left out; so is Flush.
- Directory listings of the commit log hold distinct, parsed and sorted base offsets; entries with other names are skipped before that.
- CommitLogs.CommitLog.RollSegment: does not model opening a file that already exists, because no reachable state rolls onto one.
- CommitLogs.CommitLog.Close: sets the flag only; rewriting the indexes and closing the segment files, and their failures, change nothing a later Open reads.
- Signed overflow while recovering a batch with an absurd base offset is modelled as wrapping around; in the source it is undefined.
- CRC words are lists of 32 bits, so that linearity can be proved by induction; the loop and the polynomial are those of the source.
- Bodies other than Produce are encoded and decoded by functions rather than by methods with a reader object; their round trips are proved all the same.
- Responses other than the Fetch response, and error texts, are not modelled; statuses are reduced to their codes.
- RetryStart.Start: says nothing about the queue after a refusal, because a broker whose scheduler does not start does not serve; error codes are reduced to success or failure.
- RetryCodec.FetchFrameRoundTrip: covers the frame of a successful Fetch with request id 0 and no message, because that is the envelope retry records are stored in.
- The key hash and the round-robin counter that pick a partition are a parameter of produce.
- Creating a topic over a directory left behind by a failed creation, and the text file of topic metadata, are not modelled; a restart finds the topics it had.
- A hole that non-strict recovery leaves in the middle of a log is covered by LogDamage.DamagedLogOpens and LogRecovery.OpenTwice: what Open keeps, not what later reads and appends make of a log with a hole; restarts of the broker cut tails.
- The broker's thin wrappers around the group coordinator and the offset store (looking up the partition count, mapping statuses to codes) are not modelled; the coordinator and the store are.
- Threads and locks: each locked region is one step, and a nack is two, one for the log and one for the scheduler; the scheduler thread is the Tick event.
- Consumer.Poll beyond one round: rejoining, waiting and the check that the subscription is unchanged before cursors are stored.
- GroupState is a value replaced in the map rather than an object updated in place; a member count of 2^32, which the source would divide by after a cast to zero, gets no ranges.
- GroupRuns.RunFenced: speaks of one life of a group below the last generation, because erasing a group resets its generation and sequence, and the last generation takes the paths of GroupRuns.JoinAtLastGeneration.
- TcpConnections.TcpConnection.Valid: after a bad frame only the integrity of the output stream is kept, because the waiting requests are dropped by design.
- Sockets, the event loop, the worker pool, client connections, AdminClient, Producer, the heartbeat thread, configuration and the command line.
