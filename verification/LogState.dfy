/** The commit log of one partition as a value: what Append and Read do to it, and why an indexed
    read over rolled segments is a read of one flat sequence of records. */
module LogStates {
  import opened Basics
  import opened Checksum
  import Endian
  import opened Records
  import opened RecordBatches
  import opened Segments
  import opened OffsetIndexes
  import opened LogLayout

  datatype Options = Options(segmentBytes: nat, indexIntervalBytes: nat, strictRecovery: bool) {
    /** The interval OffsetIndex works with: zero means one. */
    function Interval(): (n: nat)
      ensures n > 0
    {
      if indexIntervalBytes == 0 then 1 else indexIntervalBytes
    }
  }

  /** One segment file with its index. */
  datatype SegmentState = SegmentState(base: i64, file: bytes, entries: seq<IndexEntry>)

  datatype LogState = LogState(segments: seq<SegmentState>, next: i64, closed: bool)

  datatype AppendResult = AppendResult(baseOffset: i64, position: nat, segmentBase: i64)

  // ---- Append ----

  /** The batch Append would write, or why it refuses. */
  function BatchFor(st: LogState, records: seq<Record>): Result<RecordBatch> {
    if st.closed || records == [] || |records| > MAX_OFFSET - st.next then Err(InvalidArgument)
    else MadeBatch(st.next, records)
  }

  predicate NeedsRoll(opts: Options, file: bytes, batch: RecordBatch) {
    |file| > 0 && |file| + batch.batchBytes > opts.segmentBytes
  }

  /** RollSegment: a fresh empty segment at the end. */
  function Rolled(segments: seq<SegmentState>, base: i64): seq<SegmentState> {
    segments + [SegmentState(base, [], [])]
  }

  function RolledIfFull(opts: Options, segments: seq<SegmentState>, batch: RecordBatch): (r: seq<SegmentState>)
    requires segments != []
    ensures r != []
  {
    if NeedsRoll(opts, segments[|segments| - 1].file, batch) then Rolled(segments, batch.baseOffset) else segments
  }

  /** Write a batch to the last segment and index it; a failure to index leaves the bytes written. */
  function Written(opts: Options, segments: seq<SegmentState>, batch: RecordBatch)
    : (seq<SegmentState>, Result<AppendResult>)
    requires segments != []
  {
    var n := |segments| - 1;
    var target := segments[n];
    if EncodedBatch(batch).Err? then (segments, Err(EncodedBatch(batch).error))
    else
      var position := |target.file|;
      var longer := target.(file := target.file + EncodedBatch(batch).value);
      var entries := Appended(target.base, opts.Interval(), target.entries, batch.baseOffset, position);
      if entries.Err? then (segments[n := longer], Err(entries.error))
      else
        (segments[n := longer.(entries := entries.value)],
         Ok(AppendResult(batch.baseOffset, position, target.base)))
  }

  /** Append: the new state and what it returns. */
  function Append(opts: Options, st: LogState, records: seq<Record>): (LogState, Result<AppendResult>)
    requires st.segments != []
  {
    var made := BatchFor(st, records);
    if made.Err? then (st, Err(made.error))
    else
      MadeCount(st.next, records);
      var (segments, r) := Written(opts, RolledIfFull(opts, st.segments, made.value), made.value);
      (LogState(segments, if r.Ok? then st.next + made.value.recordCount else st.next, st.closed), r)
  }

  lemma MadeCount(base: i64, records: seq<Record>)
    ensures MadeBatch(base, records).Ok? ==>
      MadeBatch(base, records).value.recordCount == |records| && MadeBatch(base, records).value.baseOffset == base
  {
  }

  // ---- Read ----

  predicate Contains(b: RecordBatch, offset: i64) {
    b.baseOffset >= 0 && b.baseOffset <= offset < b.baseOffset + ToI64(b.recordCount)
  }

  /** The loop of Read: skip batches until one contains the offset. */
  function Scan(file: bytes, position: nat, offset: i64, maxBytes: nat): Result<RecordBatch>
    decreases |file| - position
  {
    if position >= |file| then Err(NotFound)
    else
      var batch :- BatchAt(file, position, maxBytes);
      if Contains(batch, offset) then Ok(batch)
      else Scan(file, position + batch.batchBytes, offset, maxBytes)
  }

  /** The last segment that starts at or before the offset. */
  function SegmentFor(segments: seq<SegmentState>, offset: i64): (r: Result<nat>)
    ensures r.Ok? ==> r.value < |segments|
  {
    if segments == [] then Err(NotFound)
    else if segments[|segments| - 1].base <= offset then Ok(|segments| - 1)
    else SegmentFor(segments[..|segments| - 1], offset)
  }

  function StartPosition(seg: SegmentState, offset: i64): nat {
    var floor := Floor(seg.entries, offset);
    if floor.Ok? then floor.value.position else 0
  }

  function Read(st: LogState, offset: i64, maxBytes: nat): Result<RecordBatch> {
    if st.closed || offset < 0 then Err(InvalidArgument)
    else if offset >= st.next then Err(NotFound)
    else
      var s :- SegmentFor(st.segments, offset);
      Scan(st.segments[s].file, StartPosition(st.segments[s], offset), offset, maxBytes)
  }

  // ---- The representation ----

  /** Segment s holds exactly the batches bs, indexed as Append indexes them. */
  ghost predicate Holds(opts: Options, seg: SegmentState, bs: seq<RecordBatch>) {
    && seg.base >= 0
    && seg.file == FileOf(bs)
    && seg.entries == SparseIndex(bs, opts.Interval())
    && Chain(bs, seg.base)
  }

  /** Segment t starts where the non-empty one before it ends. */
  ghost predicate Adjacent(segments: seq<SegmentState>, chunks: seq<seq<RecordBatch>>, t: nat)
    requires 0 < t < |chunks| == |segments|
  {
    chunks[t - 1] != [] && segments[t].base == EndOffset(chunks[t - 1], segments[t - 1].base)
  }

  /** The segments hold the chunks: contiguous from offset 0, only the last may be empty. */
  ghost predicate Laid(opts: Options, segments: seq<SegmentState>, chunks: seq<seq<RecordBatch>>)
    ensures Laid(opts, segments, chunks) ==> 0 < |chunks| == |segments|
  {
    && 0 < |chunks| == |segments|
    && segments[0].base == 0
    && (forall s :: 0 <= s < |chunks| ==> Holds(opts, segments[s], chunks[s]))
    && (forall t :: 0 < t < |chunks| ==> Adjacent(segments, chunks, t))
  }

  ghost function LastEnd(segments: seq<SegmentState>, chunks: seq<seq<RecordBatch>>): int
    requires 0 < |chunks| == |segments|
  {
    EndOffset(chunks[|chunks| - 1], segments[|chunks| - 1].base)
  }

  ghost predicate Represents(opts: Options, st: LogState, chunks: seq<seq<RecordBatch>>)
    ensures Represents(opts, st, chunks) ==> 0 < |chunks| == |st.segments|
  {
    Laid(opts, st.segments, chunks) && st.next == LastEnd(st.segments, chunks)
  }

  /** Every record of the log, in order: the simple thing the segments implement. */
  function FlatLog(chunks: seq<seq<RecordBatch>>): seq<Record> {
    if chunks == [] then [] else FlatLog(chunks[..|chunks| - 1]) + Flat(chunks[|chunks| - 1])
  }

  ghost predicate AllWithin(chunks: seq<seq<RecordBatch>>, maxBytes: nat) {
    forall s, i :: 0 <= s < |chunks| && 0 <= i < |chunks[s]| ==> chunks[s][i].batchBytes <= maxBytes
  }

  // ---- Scanning a file of whole batches ----

  lemma ContainsMade(b: RecordBatch, offset: i64)
    requires Made(b)
    ensures Contains(b, offset) <==> b.baseOffset <= offset < b.baseOffset + b.recordCount
  {
    hide Crc32Of, EncodedPayload;
    MadeBatchBytes(b);
    PayloadHoldsRecords(b.records);
  }

  /** Scanning from batch j towards the batch i that holds the offset: the result is batch i
      exactly when every batch on the way fits the budget. */
  lemma {:induction false} ScanChain(bs: seq<RecordBatch>, base: int, j: nat, i: nat, offset: i64, maxBytes: nat)
    requires Chain(bs, base) && j <= i < |bs|
    requires bs[i].baseOffset <= offset < bs[i].baseOffset + bs[i].recordCount
    ensures Scan(FileOf(bs), Position(bs, j), offset, maxBytes)
         == if forall m :: j <= m <= i ==> bs[m].batchBytes <= maxBytes then Ok(bs[i]) else Err(InvalidArgument)
    decreases i - j
  {
    hide Made, FileOf, Position, BatchAt, Contains;
    assert Made(bs[j]);
    PositionStep(bs, j);
    BatchAtPosition(bs, [], j, maxBytes);
    assert FileOf(bs) + [] == FileOf(bs);
    ContainsMade(bs[j], offset);
    if j < i {
      ChainIncreasing(bs, base, j, i);
      ScanChain(bs, base, j + 1, i, offset, maxBytes);
    }
  }

  /** How many segment reads the loop of Read makes. */
  function ScanReads(file: bytes, position: nat, offset: i64, maxBytes: nat): nat
    decreases |file| - position
  {
    if position >= |file| then 0
    else
      var batch := BatchAt(file, position, maxBytes);
      if batch.Err? || Contains(batch.value, offset) then 1
      else 1 + ScanReads(file, position + batch.value.batchBytes, offset, maxBytes)
  }

  lemma {:induction false} ScanReadsChain(bs: seq<RecordBatch>, base: int, j: nat, i: nat, offset: i64, maxBytes: nat)
    requires Chain(bs, base) && j <= i < |bs|
    requires bs[i].baseOffset <= offset < bs[i].baseOffset + bs[i].recordCount
    ensures ScanReads(FileOf(bs), Position(bs, j), offset, maxBytes) <= 1 + (i - j)
    decreases i - j
  {
    hide Made, FileOf, Position, BatchAt, Contains;
    assert Made(bs[j]);
    PositionStep(bs, j);
    BatchAtPosition(bs, [], j, maxBytes);
    assert FileOf(bs) + [] == FileOf(bs);
    ContainsMade(bs[j], offset);
    if j < i {
      ScanReadsChain(bs, base, j + 1, i, offset, maxBytes);
    }
  }

  // ---- Finding the segment ----

  lemma {:induction false} SegmentForAt(segments: seq<SegmentState>, offset: i64, s: nat)
    requires s < |segments| && segments[s].base <= offset
    requires forall t :: s < t < |segments| ==> offset < segments[t].base
    ensures SegmentFor(segments, offset) == Ok(s)
  {
    if s < |segments| - 1 {
      SegmentForAt(segments[..|segments| - 1], offset, s);
    }
  }

  lemma {:induction false} Locate(opts: Options, st: LogState, chunks: seq<seq<RecordBatch>>, offset: i64, n: nat)
    returns (s: nat)
    requires Represents(opts, st, chunks) && 0 < n <= |chunks|
    requires 0 <= offset < EndOffset(chunks[n - 1], st.segments[n - 1].base)
    ensures s < n && st.segments[s].base <= offset < EndOffset(chunks[s], st.segments[s].base)
    ensures forall t :: s < t < n ==> offset < st.segments[t].base
  {
    hide Holds, EndOffset;
    if st.segments[n - 1].base <= offset {
      s := n - 1;
    } else {
      assert Adjacent(st.segments, chunks, n - 1);
      s := Locate(opts, st, chunks, offset, n - 1);
    }
  }

  lemma {:induction false} FlatLogConcat(a: seq<seq<RecordBatch>>, b: seq<seq<RecordBatch>>)
    ensures FlatLog(a + b) == FlatLog(a) + FlatLog(b)
  {
    hide Flat;
    if b == [] {
      assert a + b == a;
    } else {
      assert (a + b)[..|a + b| - 1] == a + b[..|b| - 1];
      FlatLogConcat(a, b[..|b| - 1]);
    }
  }

  lemma FlatLogSplit(chunks: seq<seq<RecordBatch>>, s: nat)
    requires s < |chunks|
    ensures FlatLog(chunks) == FlatLog(chunks[..s]) + (Flat(chunks[s]) + FlatLog(chunks[s + 1..]))
  {
    hide FlatLog;
    var pre, mid, post := chunks[..s], [chunks[s]], chunks[s + 1..];
    SplitAt(chunks, s);
    FlatLogConcat(pre, mid + post);
    FlatLogConcat(mid, post);
    FlatLogSingle(chunks[s]);
  }

  lemma FlatLogSingle(bs: seq<RecordBatch>)
    ensures FlatLog([bs]) == Flat(bs)
  {
    assert [bs][..0] == [];
  }

  /** A segment's base offset counts the records before it. */
  lemma {:induction false} FlatLogBefore(opts: Options, st: LogState, chunks: seq<seq<RecordBatch>>, s: nat)
    requires Represents(opts, st, chunks) && s < |chunks|
    ensures |FlatLog(chunks[..s])| == st.segments[s].base
    ensures |FlatLog(chunks[..s + 1])| == EndOffset(chunks[s], st.segments[s].base)
  {
    hide EndOffset, Flat, Chain;
    if s > 0 {
      FlatLogBefore(opts, st, chunks, s - 1);
      assert Adjacent(st.segments, chunks, s);
    }
    assert chunks[..s + 1][..s] == chunks[..s];
    assert Holds(opts, st.segments[s], chunks[s]);
    ChainFlat(chunks[s], st.segments[s].base);
  }

  /** next_offset is the number of records in the log. */
  lemma NextCountsRecords(opts: Options, st: LogState, chunks: seq<seq<RecordBatch>>)
    requires Represents(opts, st, chunks)
    ensures |FlatLog(chunks)| == st.next
  {
    hide FlatLog, EndOffset;
    FlatLogBefore(opts, st, chunks, |chunks| - 1);
    assert chunks[..|chunks|] == chunks;
  }

  // ---- Read refines the flat log ----

  /** Where an indexed read of an offset goes: batch i of segment s holds the offset, and the index
      sends the scan to batch j, less than one interval before it. */
  ghost predicate Route(opts: Options, st: LogState, chunks: seq<seq<RecordBatch>>, offset: i64,
                        s: nat, j: nat, i: nat)
    requires |chunks| == |st.segments|
  {
    && s < |chunks| && j <= i < |chunks[s]|
    && SegmentFor(st.segments, offset) == Ok(s)
    && chunks[s][i].baseOffset <= offset < chunks[s][i].baseOffset + chunks[s][i].recordCount
    && StartPosition(st.segments[s], offset) == Position(chunks[s], j)
    && Position(chunks[s], i) < Position(chunks[s], j) + opts.Interval()
  }

  lemma RouteExists(opts: Options, st: LogState, chunks: seq<seq<RecordBatch>>, offset: i64)
    returns (s: nat, j: nat, i: nat)
    requires Represents(opts, st, chunks) && 0 <= offset < st.next
    ensures Route(opts, st, chunks, offset, s, j, i)
  {
    hide Chain, FileOf, Position, SparseIndex, Floor, SegmentFor;
    s := Locate(opts, st, chunks, offset, |chunks|);
    SegmentForAt(st.segments, offset, s);
    assert Holds(opts, st.segments[s], chunks[s]);
    i := BatchHolding(chunks[s], st.segments[s].base, offset);
    j := FloorEntry(chunks[s], st.segments[s].base, opts.Interval(), i, offset);
  }

  /** A read scans the segment of its route from the batch the index leads to. */
  lemma ReadScans(opts: Options, st: LogState, chunks: seq<seq<RecordBatch>>, offset: i64, maxBytes: nat,
                  s: nat, j: nat, i: nat)
    requires Represents(opts, st, chunks) && !st.closed && 0 <= offset < st.next
    requires Route(opts, st, chunks, offset, s, j, i)
    ensures Read(st, offset, maxBytes) == Scan(FileOf(chunks[s]), Position(chunks[s], j), offset, maxBytes)
    ensures Chain(chunks[s], st.segments[s].base)
  {
    hide Chain, FileOf, Position, SparseIndex, SegmentFor, Scan, StartPosition;
    assert Holds(opts, st.segments[s], chunks[s]);
  }

  lemma ReadOnRoute(opts: Options, st: LogState, chunks: seq<seq<RecordBatch>>, offset: i64, maxBytes: nat,
                    s: nat, j: nat, i: nat)
    requires Represents(opts, st, chunks) && !st.closed && 0 <= offset < st.next
    requires Route(opts, st, chunks, offset, s, j, i)
    ensures Read(st, offset, maxBytes)
         == if forall m :: j <= m <= i ==> chunks[s][m].batchBytes <= maxBytes then Ok(chunks[s][i])
            else Err(InvalidArgument)
  {
    hide Represents, Chain, FileOf, Position, Scan, StartPosition, SegmentFor, Read, Made;
    ReadScans(opts, st, chunks, offset, maxBytes, s, j, i);
    ScanChain(chunks[s], st.segments[s].base, j, i, offset, maxBytes);
  }

  /** Reading any offset below next_offset: the result is the one batch that holds the offset
      exactly when every batch from the floor entry on fits the budget, and the record at that
      offset is the flat log's. */
  lemma ReadRefinesFlatLog(opts: Options, st: LogState, chunks: seq<seq<RecordBatch>>, offset: i64, maxBytes: nat)
    returns (s: nat, j: nat, i: nat)
    requires Represents(opts, st, chunks) && !st.closed && 0 <= offset < st.next
    ensures Route(opts, st, chunks, offset, s, j, i)
    ensures Read(st, offset, maxBytes)
         == if forall m :: j <= m <= i ==> chunks[s][m].batchBytes <= maxBytes then Ok(chunks[s][i])
            else Err(InvalidArgument)
    ensures |chunks[s][i].records| == chunks[s][i].recordCount && |FlatLog(chunks)| == st.next
    ensures FlatLog(chunks)[offset] == chunks[s][i].records[offset - chunks[s][i].baseOffset]
  {
    hide Represents, Route, FlatLog, Read, Made;
    s, j, i := RouteExists(opts, st, chunks, offset);
    RouteBatch(opts, st, chunks, offset, s, j, i);
    ReadOnRoute(opts, st, chunks, offset, maxBytes, s, j, i);
    NextCountsRecords(opts, st, chunks);
    BatchInFlatLog(opts, st, chunks, s, i, offset - chunks[s][i].baseOffset);
  }

  /** A batch is the slice of the flat log that starts at its base offset. */
  ghost predicate SliceOf(flat: seq<Record>, b: RecordBatch) {
    && 0 <= b.baseOffset && b.baseOffset + |b.records| <= |flat|
    && flat[b.baseOffset..b.baseOffset + |b.records|] == b.records
  }

  lemma BatchIsSlice(opts: Options, st: LogState, chunks: seq<seq<RecordBatch>>, s: nat, i: nat)
    requires Represents(opts, st, chunks) && s < |chunks| && i < |chunks[s]| && chunks[s][i].records != []
    ensures SliceOf(FlatLog(chunks), chunks[s][i])
  {
    hide Represents, FlatLog;
    var b, flat := chunks[s][i], FlatLog(chunks);
    forall k | 0 <= k < |b.records|
      ensures 0 <= b.baseOffset + k < |flat| && flat[b.baseOffset + k] == b.records[k]
    {
      BatchInFlatLog(opts, st, chunks, s, i, k);
    }
    BatchInFlatLog(opts, st, chunks, s, i, 0);
    BatchInFlatLog(opts, st, chunks, s, i, |b.records| - 1);
  }

  /** With a budget that holds the largest batch, every offset below next_offset is readable, and
      the batch returned is the slice of the flat log around that offset. */
  lemma ReadFindsRecord(opts: Options, st: LogState, chunks: seq<seq<RecordBatch>>, offset: i64, maxBytes: nat)
    requires Represents(opts, st, chunks) && !st.closed && 0 <= offset < st.next
    requires AllWithin(chunks, maxBytes)
    ensures Read(st, offset, maxBytes).Ok?
    ensures var b := Read(st, offset, maxBytes).value;
      b.baseOffset <= offset < b.baseOffset + |b.records| && SliceOf(FlatLog(chunks), b)
  {
    hide Represents, FlatLog, Read, Route, SliceOf;
    var s, j, i := ReadRefinesFlatLog(opts, st, chunks, offset, maxBytes);
    RouteBatch(opts, st, chunks, offset, s, j, i);
    BatchIsSlice(opts, st, chunks, s, i);
  }

  lemma RouteBatch(opts: Options, st: LogState, chunks: seq<seq<RecordBatch>>, offset: i64, s: nat, j: nat, i: nat)
    requires Represents(opts, st, chunks) && Route(opts, st, chunks, offset, s, j, i)
    ensures |chunks| == |st.segments| && s < |chunks| && j <= i < |chunks[s]|
    ensures chunks[s][i].baseOffset <= offset < chunks[s][i].baseOffset + chunks[s][i].recordCount
    ensures Made(chunks[s][i]) && |chunks[s][i].records| == chunks[s][i].recordCount && chunks[s][i].baseOffset >= 0
  {
    hide Made, Position, SegmentFor, StartPosition, SparseIndex, FileOf;
    assert Holds(opts, st.segments[s], chunks[s]);
    assert Made(chunks[s][i]);
    MadeBatchBytes(chunks[s][i]);
  }

  /** Record k of batch i of segment s is where its base offset says in the flat log. */
  lemma BatchInFlatLog(opts: Options, st: LogState, chunks: seq<seq<RecordBatch>>, s: nat, i: nat, k: nat)
    requires Represents(opts, st, chunks) && s < |chunks| && i < |chunks[s]| && k < |chunks[s][i].records|
    ensures 0 <= chunks[s][i].baseOffset + k < |FlatLog(chunks)|
    ensures FlatLog(chunks)[chunks[s][i].baseOffset + k] == chunks[s][i].records[k]
  {
    hide FileOf, SparseIndex, FlatLog, Flat, EndOffset, Made;
    assert Holds(opts, st.segments[s], chunks[s]);
    assert Made(chunks[s][i]);
    MadeBatchBytes(chunks[s][i]);
    var base, offset := st.segments[s].base, chunks[s][i].baseOffset + k;
    hide Chain, Adjacent, LastEnd;
    FlatAt(chunks[s], base, i, offset);
    FlatLogBefore(opts, st, chunks, s);
    FlatLogSplit(chunks, s);
    MiddleOf(FlatLog(chunks[..s]), Flat(chunks[s]), FlatLog(chunks[s + 1..]), offset - base);
  }

  /** The index only ever helps: whatever budget lets a scan from the start of the segment reach the
      batch lets the indexed read reach the same batch. */
  lemma IndexNeverHurts(opts: Options, st: LogState, chunks: seq<seq<RecordBatch>>, offset: i64, maxBytes: nat)
    requires Represents(opts, st, chunks) && !st.closed && 0 <= offset < st.next
    ensures SegmentFor(st.segments, offset).Ok?
    ensures var fromStart := Scan(st.segments[SegmentFor(st.segments, offset).value].file, 0, offset, maxBytes);
      fromStart.Ok? ==> Read(st, offset, maxBytes) == fromStart
  {
    hide FlatLog, Flat, Scan, StartPosition, EndOffset, FileOf, SparseIndex, Read;
    var s, j, i := ReadRefinesFlatLog(opts, st, chunks, offset, maxBytes);
    assert Holds(opts, st.segments[s], chunks[s]);
    ScanChain(chunks[s], st.segments[s].base, 0, i, offset, maxBytes);
    PositionZero(chunks[s]);
  }

  lemma PositionZero(bs: seq<RecordBatch>)
    ensures Position(bs, 0) == 0
  {
    assert bs[..0] == [];
  }

  /** An indexed read decodes at most 1 + (interval - 1) / 52 batches. */
  lemma ReadCostBounded(opts: Options, st: LogState, chunks: seq<seq<RecordBatch>>, offset: i64, maxBytes: nat)
    requires Represents(opts, st, chunks) && 0 <= offset < st.next
    ensures SegmentFor(st.segments, offset).Ok?
    ensures var seg := st.segments[SegmentFor(st.segments, offset).value];
      ScanReads(seg.file, StartPosition(seg, offset), offset, maxBytes)
        <= 1 + (opts.Interval() - 1) / MIN_BATCH_BYTES
  {
    hide ScanReads, StartPosition, EndOffset, FileOf, SparseIndex, Position;
    var s, j, i := RouteExists(opts, st, chunks, offset);
    assert Holds(opts, st.segments[s], chunks[s]);
    ScanReadsChain(chunks[s], st.segments[s].base, j, i, offset, maxBytes);
    PositionsGrow(chunks[s], j, i);
  }

  // ---- Append refines the flat log ----

  /** A batch added to the last chunk. */
  function ChunkExtended(chunks: seq<seq<RecordBatch>>, batch: RecordBatch): seq<seq<RecordBatch>>
    requires chunks != []
  {
    var n := |chunks| - 1;
    chunks[n := chunks[n] + [batch]]
  }

  /** The chunks after appending a batch. */
  function ChunksAfter(opts: Options, st: LogState, chunks: seq<seq<RecordBatch>>, batch: RecordBatch)
    : seq<seq<RecordBatch>>
    requires 0 < |chunks| == |st.segments|
  {
    ChunkExtended(if NeedsRoll(opts, st.segments[|chunks| - 1].file, batch) then chunks + [[]] else chunks, batch)
  }

  lemma HoldsNext(opts: Options, seg: SegmentState, bs: seq<RecordBatch>, b: RecordBatch)
    requires Holds(opts, seg, bs) && Made(b) && b.baseOffset == EndOffset(bs, seg.base)
    ensures Appended(seg.base, opts.Interval(), seg.entries, b.baseOffset, |seg.file|)
         == Ok(SparseIndex(bs + [b], opts.Interval()))
    ensures Holds(opts, SegmentState(seg.base, seg.file + BatchBytes(b), SparseIndex(bs + [b], opts.Interval())),
                  bs + [b])
  {
    hide Made, BatchBytes, SparseIndex, Appended, Chain, FileOf, EndOffset;
    ChainNext(bs, seg.base, b);
    FileNext(bs, b);
    IndexExtends(bs, seg.base, opts.Interval(), b);
  }

  lemma ChainNext(bs: seq<RecordBatch>, base: int, b: RecordBatch)
    requires Chain(bs, base) && Made(b) && b.baseOffset == EndOffset(bs, base)
    ensures Chain(bs + [b], base)
  {
    hide Made;
  }

  lemma FileNext(bs: seq<RecordBatch>, b: RecordBatch)
    ensures FileOf(bs + [b]) == FileOf(bs) + BatchBytes(b)
  {
    hide BatchBytes;
    var all := bs + [b];
    assert all[..|all| - 1] == bs;
  }

  lemma BatchForMade(st: LogState, records: seq<Record>)
    requires st.next >= 0 && BatchFor(st, records).Ok?
    ensures var b := BatchFor(st, records).value;
      Made(b) && b.baseOffset == st.next && b.records == StampedAll(records) && b.recordCount == |records|
  {
    hide Crc32Of, Payload, PayloadSize, AllFit, StampedAll, Stamped;
    StampingKeepsEncoding(records);
    StampedTwice(records);
  }

  lemma {:induction false} StampedTwice(records: seq<Record>)
    ensures StampedAll(StampedAll(records)) == StampedAll(records)
  {
    hide Crc32Of, Endian.LittleEndian;
    var once := StampedAll(records);
    forall i | 0 <= i < |once| ensures Stamped(once[i]) == once[i] {
      assert ChecksummedBytes(Stamped(records[i])) == ChecksummedBytes(records[i]);
    }
  }

  lemma LastHolds(opts: Options, segments: seq<SegmentState>, chunks: seq<seq<RecordBatch>>)
    requires Laid(opts, segments, chunks)
    ensures 0 < |chunks| == |segments| && Holds(opts, segments[|chunks| - 1], chunks[|chunks| - 1])
  {
  }

  lemma LastReplaced(opts: Options, segments: seq<SegmentState>, chunks: seq<seq<RecordBatch>>,
                     seg: SegmentState, bs: seq<RecordBatch>)
    requires Laid(opts, segments, chunks) && Holds(opts, seg, bs) && seg.base == segments[|segments| - 1].base
    ensures Laid(opts, segments[|segments| - 1 := seg], chunks[|chunks| - 1 := bs])
  {
    hide Holds, EndOffset;
    var n := |chunks| - 1;
    var after, longer := segments[n := seg], chunks[n := bs];
    forall t | 0 < t <= n ensures Adjacent(after, longer, t) {
      assert Adjacent(segments, chunks, t);
    }
  }

  lemma WrittenKeepsLayout(opts: Options, segments: seq<SegmentState>, chunks: seq<seq<RecordBatch>>, b: RecordBatch)
    requires Laid(opts, segments, chunks) && Made(b) && b.baseOffset == LastEnd(segments, chunks)
    ensures var (after, r) := Written(opts, segments, b);
      var n := |segments| - 1;
      && r == Ok(AppendResult(b.baseOffset, |segments[n].file|, segments[n].base))
      && Laid(opts, after, ChunkExtended(chunks, b))
      && LastEnd(after, ChunkExtended(chunks, b)) == b.baseOffset + b.recordCount
  {
    hide Made, BatchBytes, SparseIndex, Appended, EncodedBatch, Holds, Laid;
    LastHolds(opts, segments, chunks);
    var n := |segments| - 1;
    var seg, bs := segments[n], chunks[n] + [b];
    MadeBatchBytes(b);
    HoldsNext(opts, seg, chunks[n], b);
    LastReplaced(opts, segments, chunks,
                 SegmentState(seg.base, seg.file + BatchBytes(b), SparseIndex(bs, opts.Interval())), bs);
  }

  lemma RollKeepsLayout(opts: Options, segments: seq<SegmentState>, chunks: seq<seq<RecordBatch>>, b: RecordBatch)
    requires Laid(opts, segments, chunks) && b.baseOffset == LastEnd(segments, chunks) >= 0
    requires NeedsRoll(opts, segments[|chunks| - 1].file, b)
    ensures Laid(opts, Rolled(segments, b.baseOffset), chunks + [[]])
    ensures LastEnd(Rolled(segments, b.baseOffset), chunks + [[]]) == b.baseOffset
  {
    hide Holds;
    FreshHolds(opts, b.baseOffset);
    FullHasBatches(opts, segments[|chunks| - 1], chunks[|chunks| - 1]);
    var n := |chunks|;
    var after, longer := Rolled(segments, b.baseOffset), chunks + [[]];
    forall t | 0 < t <= n ensures Adjacent(after, longer, t) {
      if t < n { assert Adjacent(segments, chunks, t); }
    }
  }

  lemma FreshHolds(opts: Options, base: i64)
    requires base >= 0
    ensures Holds(opts, SegmentState(base, [], []), [])
  {
  }

  lemma FullHasBatches(opts: Options, seg: SegmentState, bs: seq<RecordBatch>)
    requires Holds(opts, seg, bs)
    ensures seg.file != [] ==> bs != []
  {
  }

  lemma NextNotNegative(opts: Options, st: LogState, chunks: seq<seq<RecordBatch>>)
    requires Represents(opts, st, chunks)
    ensures st.next >= 0
  {
    NextCountsRecords(opts, st, chunks);
  }

  lemma AppendStep(opts: Options, st: LogState, chunks: seq<seq<RecordBatch>>, records: seq<Record>)
    requires Represents(opts, st, chunks) && BatchFor(st, records).Ok?
    ensures var (st', r) := Append(opts, st, records);
      && r.Ok? && r.value.baseOffset == st.next
      && st'.next == st.next + |records| && st'.closed == st.closed
      && Represents(opts, st', ChunksAfter(opts, st, chunks, BatchFor(st, records).value))
  {
    hide Made, BatchFor, Written, Laid, LastEnd, ChunkExtended;
    var batch := BatchFor(st, records).value;
    NextNotNegative(opts, st, chunks);
    BatchForMade(st, records);
    if NeedsRoll(opts, st.segments[|chunks| - 1].file, batch) {
      RollKeepsLayout(opts, st.segments, chunks, batch);
      WrittenKeepsLayout(opts, Rolled(st.segments, batch.baseOffset), chunks + [[]], batch);
    } else {
      WrittenKeepsLayout(opts, st.segments, chunks, batch);
    }
  }

  /** Append adds exactly the given records, stamped, at the end of the flat log; a refusal changes
      nothing at all. */
  lemma AppendRefinesFlatLog(opts: Options, st: LogState, chunks: seq<seq<RecordBatch>>, records: seq<Record>)
    requires Represents(opts, st, chunks)
    ensures var made := BatchFor(st, records);
      var (st', r) := Append(opts, st, records);
      if made.Err? then st' == st && r == Err(made.error)
      else
        && r.Ok? && r.value.baseOffset == |FlatLog(chunks)|
        && Represents(opts, st', ChunksAfter(opts, st, chunks, made.value))
        && FlatLog(ChunksAfter(opts, st, chunks, made.value)) == FlatLog(chunks) + StampedAll(records)
  {
    hide Append, BatchFor, FlatLog, Flat, StampedAll, Holds, EndOffset;
    if BatchFor(st, records).Err? {
      AppendRefused(opts, st, records);
    } else {
      AppendStep(opts, st, chunks, records);
      NextCountsRecords(opts, st, chunks);
      NextNotNegative(opts, st, chunks);
      BatchForMade(st, records);
      FlatLogAfter(opts, st, chunks, BatchFor(st, records).value);
    }
  }

  lemma AppendRefused(opts: Options, st: LogState, records: seq<Record>)
    requires st.segments != [] && BatchFor(st, records).Err?
    ensures Append(opts, st, records) == (st, Err(BatchFor(st, records).error))
  {
  }

  lemma FlatLogExtended(chunks: seq<seq<RecordBatch>>, batch: RecordBatch)
    requires chunks != []
    ensures FlatLog(ChunkExtended(chunks, batch)) == FlatLog(chunks) + batch.records
  {
    hide Flat;
    var n := |chunks| - 1;
    assert ChunkExtended(chunks, batch)[..n] == chunks[..n];
    FlatConcat(chunks[n], [batch]);
    FlatSingle(batch);
  }

  lemma FlatLogRolled(chunks: seq<seq<RecordBatch>>)
    ensures FlatLog(chunks + [[]]) == FlatLog(chunks)
  {
    assert (chunks + [[]])[..|chunks|] == chunks;
  }

  lemma FlatLogAfter(opts: Options, st: LogState, chunks: seq<seq<RecordBatch>>, batch: RecordBatch)
    requires 0 < |chunks| == |st.segments|
    ensures FlatLog(ChunksAfter(opts, st, chunks, batch)) == FlatLog(chunks) + batch.records
  {
    hide FlatLog, ChunkExtended, NeedsRoll;
    FlatLogRolled(chunks);
    FlatLogExtended(if NeedsRoll(opts, st.segments[|chunks| - 1].file, batch) then chunks + [[]] else chunks, batch);
  }
}
