/** A partition log as the broker sees it: the batches of one commit log, oldest first. */
module PartitionLogs {
  import opened Basics
  import opened Records
  import opened RecordBatches
  import opened Segments
  import opened LogLayout
  import opened LogStates
  import opened LogRecovery
  import opened LogRuns

  type PartitionLog = seq<seq<Record>>

  datatype Batch = Batch(base: nat, records: seq<Record>)

  function FlatRecords(log: PartitionLog): seq<Record> {
    if log == [] then [] else FlatRecords(log[..|log| - 1]) + log[|log| - 1]
  }

  function NextOffset(log: PartitionLog): nat {
    |FlatRecords(log)|
  }

  function BatchBytesOf(records: seq<Record>): nat {
    BATCH_HEADER_BYTES + PayloadSize(records)
  }

  /** Which batch holds an offset. */
  function IndexOf(log: PartitionLog, offset: nat): (i: nat)
    requires offset < NextOffset(log)
    ensures i < |log| && BaseOf(log, i) <= offset < BaseOf(log, i) + |log[i]|
  {
    var n := |log| - 1;
    if BaseOf(log, n) <= offset then n
    else
      var i := IndexOf(log[..n], offset);
      assert log[..n][..i] == log[..i];
      i
  }

  /** The offset of the first record of a batch. */
  function BaseOf(log: PartitionLog, i: nat): nat
    requires i <= |log|
  {
    NextOffset(log[..i])
  }

  predicate Within(log: PartitionLog, first: nat, last: nat, maxBytes: nat)
    requires last < |log|
  {
    forall m :: first <= m <= last ==> BatchBytesOf(log[m]) <= maxBytes
  }

  /** CommitLog::Read: the batch that holds the offset, if it and every batch from the one the index
      sends the scan to fit the budget. */
  function ReadLog(log: PartitionLog, offset: i64, maxBytes: nat, start: nat): Result<Batch> {
    if offset < 0 then Err(InvalidArgument)
    else if offset >= NextOffset(log) then Err(NotFound)
    else
      var i := IndexOf(log, offset);
      if !Within(log, Min(start, i), i, maxBytes) then Err(InvalidArgument) else Ok(Batch(BaseOf(log, i), log[i]))
  }

  /** CommitLog::Append. */
  function AppendTo(log: PartitionLog, records: seq<Record>): (r: Result<PartitionLog>)
    ensures r.Ok? <==> Accepts(FlatRecords(log), records)
  {
    if records == [] || |records| > MAX_OFFSET - NextOffset(log) then Err(InvalidArgument)
    else
      var payload :- EncodedPayload(records);
      Ok(log + [StampedAll(records)])
  }

  // ---- Offsets ----

  lemma FlatSnoc(log: PartitionLog, batch: seq<Record>)
    ensures FlatRecords(log + [batch]) == FlatRecords(log) + batch
  {
    assert (log + [batch])[..|log|] == log;
  }

  lemma {:induction false} FlatOfConcat(a: PartitionLog, b: PartitionLog)
    ensures FlatRecords(a + b) == FlatRecords(a) + FlatRecords(b)
  {
    if b == [] {
      assert a + b == a;
    } else {
      var n := |b| - 1;
      assert (a + b)[..|a + b| - 1] == a + b[..n];
      FlatOfConcat(a, b[..n]);
    }
  }

  lemma FlatOfOne(batch: seq<Record>)
    ensures FlatRecords([batch]) == batch
  {
    assert [batch][..0] == [];
    assert FlatRecords([]) == [];
  }

  lemma FlatOfSplit(log: PartitionLog, i: nat)
    requires i < |log|
    ensures FlatRecords(log) == FlatRecords(log[..i]) + (log[i] + FlatRecords(log[i + 1..]))
  {
    hide FlatRecords;
    var pre, mid, post := log[..i], [log[i]], log[i + 1..];
    SplitAt(log, i);
    FlatOfConcat(pre, mid + post);
    FlatOfConcat(mid, post);
    FlatOfOne(log[i]);
  }

  /** Record k of batch i has offset BaseOf(log, i) + k. */
  lemma BatchSpan(log: PartitionLog, i: nat)
    requires i < |log|
    ensures BaseOf(log, i) + |log[i]| <= NextOffset(log)
    ensures forall k :: 0 <= k < |log[i]| ==> FlatRecords(log)[BaseOf(log, i) + k] == log[i][k]
  {
    hide FlatRecords;
    FlatOfSplit(log, i);
  }

  lemma {:induction false} BasesGrow(log: PartitionLog, i: nat, j: nat)
    requires i < j <= |log|
    ensures BaseOf(log, i) + |log[i]| <= BaseOf(log, j)
  {
    hide FlatRecords;
    assert log[..j][..i] == log[..i];
    BatchSpan(log[..j], i);
  }

  /** Only one batch holds an offset. */
  lemma IndexUnique(log: PartitionLog, offset: nat, i: nat)
    requires i < |log| && BaseOf(log, i) <= offset < BaseOf(log, i) + |log[i]|
    ensures offset < NextOffset(log) && IndexOf(log, offset) == i
  {
    hide IndexOf, FlatRecords;
    BatchSpan(log, i);
    var j := IndexOf(log, offset);
    if i < j { BasesGrow(log, i, j); }
    if j < i { BasesGrow(log, j, i); }
  }

  // ---- The commit log behind it ----

  function RecordsOf(bs: seq<RecordBatch>): (log: PartitionLog)
    ensures |log| == |bs| && forall i :: 0 <= i < |bs| ==> log[i] == bs[i].records
  {
    if bs == [] then [] else RecordsOf(bs[..|bs| - 1]) + [bs[|bs| - 1].records]
  }

  /** The batches of every segment, one segment after another. */
  function Batches(chunks: seq<seq<RecordBatch>>): PartitionLog {
    if chunks == [] then [] else Batches(chunks[..|chunks| - 1]) + RecordsOf(chunks[|chunks| - 1])
  }

  lemma {:induction false} RecordsFlat(bs: seq<RecordBatch>)
    ensures FlatRecords(RecordsOf(bs)) == Flat(bs)
  {
    if bs != [] {
      var n := |bs| - 1;
      RecordsFlat(bs[..n]);
      assert RecordsOf(bs)[..n] == RecordsOf(bs[..n]);
    }
  }

  lemma {:induction false} BatchesFlat(chunks: seq<seq<RecordBatch>>)
    ensures FlatRecords(Batches(chunks)) == FlatLog(chunks)
  {
    hide FlatRecords, Flat, RecordsOf;
    if chunks == [] {
      assert FlatRecords([]) == [] by { EmptyLog(); }
    } else {
      var n := |chunks| - 1;
      BatchesFlat(chunks[..n]);
      RecordsFlat(chunks[n]);
      FlatOfConcat(Batches(chunks[..n]), RecordsOf(chunks[n]));
    }
  }

  lemma EmptyLog()
    ensures FlatRecords([]) == []
  {
  }

  lemma {:induction false} BatchesConcat(a: seq<seq<RecordBatch>>, b: seq<seq<RecordBatch>>)
    ensures Batches(a + b) == Batches(a) + Batches(b)
  {
    hide RecordsOf;
    if b == [] {
      assert a + b == a;
    } else {
      var n := |b| - 1;
      assert (a + b)[..|a + b| - 1] == a + b[..n] && (a + b)[|a + b| - 1] == b[n];
      BatchesConcat(a, b[..n]);
      assert Batches(a) + (Batches(b[..n]) + RecordsOf(b[n])) == (Batches(a) + Batches(b[..n])) + RecordsOf(b[n]);
    }
  }

  lemma BatchesOfOne(bs: seq<RecordBatch>)
    ensures Batches([bs]) == RecordsOf(bs)
  {
    hide RecordsOf;
    assert [bs][..0] == [];
    assert Batches([]) == [];
  }

  lemma BatchesSplit(chunks: seq<seq<RecordBatch>>, s: nat)
    requires s < |chunks|
    ensures Batches(chunks) == Batches(chunks[..s]) + (RecordsOf(chunks[s]) + Batches(chunks[s + 1..]))
  {
    hide RecordsOf, Batches;
    var pre, mid, post := chunks[..s], [chunks[s]], chunks[s + 1..];
    SplitAt(chunks, s);
    BatchesConcat(pre, mid + post);
    BatchesConcat(mid, post);
    BatchesOfOne(chunks[s]);
  }

  lemma RecordsTake(bs: seq<RecordBatch>, i: nat)
    requires i <= |bs|
    ensures RecordsOf(bs)[..i] == RecordsOf(bs[..i])
  {
  }

  /** The base offset of a batch counts the records before it. */
  lemma BaseCounts(opts: Options, st: LogState, chunks: seq<seq<RecordBatch>>, s: nat, i: nat)
    requires Represents(opts, st, chunks) && s < |chunks| && i < |chunks[s]|
    ensures NextOffset(Batches(chunks[..s]) + RecordsOf(chunks[s][..i])) == chunks[s][i].baseOffset
  {
    hide FlatLog, EndOffset, Made, FlatRecords, Flat, Batches, RecordsOf, FileOf, SparseIndex, Adjacent;
    assert Holds(opts, st.segments[s], chunks[s]);
    var bs, base := chunks[s], st.segments[s].base;
    FlatOfConcat(Batches(chunks[..s]), RecordsOf(bs[..i]));
    BatchesFlat(chunks[..s]);
    RecordsFlat(bs[..i]);
    FlatLogBefore(opts, st, chunks, s);
    ChainTake(bs, base, i);
    hide Chain;
    ChainFlat(bs[..i], base);
  }

  /** Batch i of segment s in the list of all batches. */
  lemma BatchPlace(opts: Options, st: LogState, chunks: seq<seq<RecordBatch>>, s: nat, i: nat)
    requires Represents(opts, st, chunks) && s < |chunks| && i < |chunks[s]|
    ensures var log, n := Batches(chunks), |Batches(chunks[..s])| + i;
      && n < |log| && log[n] == chunks[s][i].records && BaseOf(log, n) == chunks[s][i].baseOffset
      && BatchBytesOf(log[n]) == chunks[s][i].batchBytes
  {
    hide Represents, FlatRecords, Batches, BatchBytesOf;
    BatchesSplit(chunks, s);
    MiddleOf(Batches(chunks[..s]), RecordsOf(chunks[s]), Batches(chunks[s + 1..]), i);
    RecordsTake(chunks[s], i);
    BaseCounts(opts, st, chunks, s, i);
    BatchBytesMade(opts, st, chunks, s, i);
  }

  lemma BatchMade(opts: Options, st: LogState, chunks: seq<seq<RecordBatch>>, s: nat, i: nat)
    requires Represents(opts, st, chunks) && s < |chunks| && i < |chunks[s]|
    ensures Made(chunks[s][i])
  {
    hide EndOffset, FileOf, SparseIndex, Adjacent, LastEnd, Made;
    assert Holds(opts, st.segments[s], chunks[s]);
  }

  lemma BatchBytesMade(opts: Options, st: LogState, chunks: seq<seq<RecordBatch>>, s: nat, i: nat)
    requires Represents(opts, st, chunks) && s < |chunks| && i < |chunks[s]|
    ensures BatchBytesOf(chunks[s][i].records) == chunks[s][i].batchBytes
  {
    hide Represents, PayloadSize, Made;
    BatchMade(opts, st, chunks, s, i);
    MadeSize(chunks[s][i]);
  }

  lemma MadeSize(b: RecordBatch)
    requires Made(b)
    ensures BatchBytesOf(b.records) == b.batchBytes
  {
    hide PayloadSize, BatchBytes, EncodedBatch, BatchIn, StampedAll, Payload;
    MadeBatchBytes(b);
  }

  /** A run of batches of one segment fits a budget together or not at all in either view. */
  lemma WithinSegment(opts: Options, st: LogState, chunks: seq<seq<RecordBatch>>, s: nat, j: nat, i: nat, maxBytes: nat)
    requires Represents(opts, st, chunks) && s < |chunks| && j <= i < |chunks[s]|
    ensures |Batches(chunks[..s])| + i < |Batches(chunks)|
    ensures Within(Batches(chunks), |Batches(chunks[..s])| + j, |Batches(chunks[..s])| + i, maxBytes)
       <==> forall m :: j <= m <= i ==> chunks[s][m].batchBytes <= maxBytes
  {
    hide Represents, Batches, BatchBytesOf, FlatRecords;
    var log, before := Batches(chunks), |Batches(chunks[..s])|;
    BatchPlace(opts, st, chunks, s, i);
    forall m | j <= m <= i
      ensures before + m < |log| && BatchBytesOf(log[before + m]) == chunks[s][m].batchBytes {
      BatchPlace(opts, st, chunks, s, m);
    }
    if Within(log, before + j, before + i, maxBytes) {
      forall m | j <= m <= i ensures chunks[s][m].batchBytes <= maxBytes {
        assert BatchBytesOf(log[before + m]) <= maxBytes;
      }
    } else {
      var k :| before + j <= k <= before + i && BatchBytesOf(log[k]) > maxBytes;
      assert chunks[s][k - before].batchBytes > maxBytes;
    }
  }

  lemma ReadOutside(st: LogState, offset: i64, maxBytes: nat)
    requires !st.closed && !(0 <= offset < st.next)
    ensures Read(st, offset, maxBytes) == if offset < 0 then Err(InvalidArgument) else Err(NotFound)
  {
    hide Scan, SegmentFor;
  }

  lemma ReadLogOutside(log: PartitionLog, offset: i64, maxBytes: nat, start: nat)
    requires !(0 <= offset < NextOffset(log))
    ensures ReadLog(log, offset, maxBytes, start) == if offset < 0 then Err(InvalidArgument) else Err(NotFound)
  {
    hide FlatRecords, IndexOf, Within;
  }

  lemma ReadLogInside(log: PartitionLog, offset: i64, maxBytes: nat, start: nat, i: nat)
    requires 0 <= offset < NextOffset(log) && IndexOf(log, offset) == i && start <= i
    ensures ReadLog(log, offset, maxBytes, start)
         == if Within(log, start, i, maxBytes) then Ok(Batch(BaseOf(log, i), log[i])) else Err(InvalidArgument)
  {
    hide FlatRecords, IndexOf, Within;
  }

  /** Reading the commit log is reading the list of its batches, from the batch its index leads to. */
  lemma ReadIsReadLog(opts: Options, st: LogState, chunks: seq<seq<RecordBatch>>, offset: i64, maxBytes: nat)
    returns (start: nat)
    requires Represents(opts, st, chunks) && !st.closed
    ensures var r, q := Read(st, offset, maxBytes), ReadLog(Batches(chunks), offset, maxBytes, start);
      && (r.Ok? ==> q == Ok(Batch(Max(0, r.value.baseOffset), r.value.records)) && r.value.baseOffset >= 0)
      && (r.Err? ==> q == Err(r.error))
  {
    hide Represents, FlatLog, Batches, FlatRecords, IndexOf, BatchBytesOf, Within, Read, ReadLog, Route, BaseOf, Made;
    NextCountsRecords(opts, st, chunks);
    BatchesFlat(chunks);
    start := 0;
    if 0 <= offset < st.next {
      var s, j, i := ReadRefinesFlatLog(opts, st, chunks, offset, maxBytes);
      RouteBatch(opts, st, chunks, offset, s, j, i);
      start := |Batches(chunks[..s])| + j;
      BatchPlace(opts, st, chunks, s, i);
      IndexUnique(Batches(chunks), offset, |Batches(chunks[..s])| + i);
      WithinSegment(opts, st, chunks, s, j, i, maxBytes);
      ReadLogInside(Batches(chunks), offset, maxBytes, start, |Batches(chunks[..s])| + i);
    } else {
      ReadOutside(st, offset, maxBytes);
      ReadLogOutside(Batches(chunks), offset, maxBytes, start);
    }
  }

  lemma BatchesExtended(chunks: seq<seq<RecordBatch>>, batch: RecordBatch)
    requires chunks != []
    ensures Batches(ChunkExtended(chunks, batch)) == Batches(chunks) + [batch.records]
  {
    hide RecordsOf;
    var n := |chunks| - 1;
    assert ChunkExtended(chunks, batch)[..n] == chunks[..n];
    assert RecordsOf(chunks[n] + [batch]) == RecordsOf(chunks[n]) + [batch.records];
  }

  lemma BatchesAfter(opts: Options, st: LogState, chunks: seq<seq<RecordBatch>>, batch: RecordBatch)
    requires 0 < |chunks| == |st.segments|
    ensures Batches(ChunksAfter(opts, st, chunks, batch)) == Batches(chunks) + [batch.records]
  {
    hide Batches, ChunkExtended, NeedsRoll;
    BatchesConcat(chunks, [[]]);
    BatchesOfOne([]);
    assert Batches(chunks) + [] == Batches(chunks);
    BatchesExtended(if NeedsRoll(opts, st.segments[|chunks| - 1].file, batch) then chunks + [[]] else chunks, batch);
  }

  lemma BatchForIsAppendTo(st: LogState, log: PartitionLog, records: seq<Record>)
    requires !st.closed && st.next == NextOffset(log)
    ensures BatchFor(st, records).Ok? ==> AppendTo(log, records) == Ok(log + [StampedAll(records)])
    ensures BatchFor(st, records).Err? ==> AppendTo(log, records) == Err(BatchFor(st, records).error)
  {
    hide EncodedPayload, FlatRecords;
  }

  /** Appending to the commit log is appending to the list of its batches. */
  lemma AppendIsAppendTo(opts: Options, st: LogState, chunks: seq<seq<RecordBatch>>, records: seq<Record>)
    returns (chunks': seq<seq<RecordBatch>>)
    requires Represents(opts, st, chunks) && !st.closed
    ensures var ((st', r), q) := (Append(opts, st, records), AppendTo(Batches(chunks), records));
      && Represents(opts, st', chunks') && !st'.closed
      && (r.Ok? ==> q == Ok(Batches(chunks')) && r.value.baseOffset == NextOffset(Batches(chunks)))
      && (r.Err? ==> q == Err(r.error) && chunks' == chunks)
  {
    hide Represents, FlatLog, Batches, FlatRecords, Append, BatchFor, AppendTo, ChunksAfter, StampedAll;
    var log := Batches(chunks);
    NextCountsRecords(opts, st, chunks);
    BatchesFlat(chunks);
    AppendRefinesFlatLog(opts, st, chunks, records);
    AppendKeepsOpen(opts, st, records);
    BatchForIsAppendTo(st, log, records);
    chunks' := chunks;
    if BatchFor(st, records).Ok? {
      var batch := BatchFor(st, records).value;
      chunks' := ChunksAfter(opts, st, chunks, batch);
      NextNotNegative(opts, st, chunks);
      BatchForMade(st, records);
      BatchesAfter(opts, st, chunks, batch);
    }
  }

  lemma RecordsTaken(bs: seq<RecordBatch>, k: nat)
    requires k <= |bs|
    ensures RecordsOf(bs[..k]) <= RecordsOf(bs)
  {
    hide RecordsOf;
  }

  /** The batches that survive a crash are the first ones. */
  lemma SurvivingBatches(chunks: seq<seq<RecordBatch>>, cut: nat)
    requires chunks != []
    ensures Batches(Surviving(chunks, cut)) <= Batches(chunks)
  {
    hide RecordsOf, WholeBatches;
    var n := |chunks| - 1;
    assert Surviving(chunks, cut)[..n] == chunks[..n];
    RecordsTaken(chunks[n], WholeBatches(chunks[n], cut));
  }

  /** A crash of the commit log, at whatever byte, and opening it again, in either mode, cut the list of
      its batches short. */
  lemma CrashCutsShort(opts: Options, st: LogState, chunks: seq<seq<RecordBatch>>, cut: nat) returns (st': LogState)
    requires Represents(opts, st, chunks) && cut <= |st.segments[|st.segments| - 1].file|
    requires opts.segmentBytes >= BATCH_HEADER_BYTES
    ensures forall strict ::
      Open(opts.(strictRecovery := strict), CrashFiles(st.segments, cut)) == (Ok(st'), FilesOf(st'.segments))
    ensures Represents(opts, st', Surviving(chunks, cut)) && !st'.closed
    ensures Batches(Surviving(chunks, cut)) <= Batches(chunks)
  {
    hide Represents, Open, CrashFiles, FilesOf, FlatLog, Surviving, WholeBatches, Position, Batches;
    st' := CrashKeepsWholeBatches(opts, st, chunks, cut);
    SurvivingBatches(chunks, cut);
  }
}
