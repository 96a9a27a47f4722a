/** What a commit log does not do: open with segments that hold no batch, work once closed, take what it
    has no room for, or read what it does not have. */
module LogRefusals {
  import opened Basics
  import opened Records
  import opened RecordBatches
  import opened LogStates
  import opened LogRecovery
  import opened LogRuns
  import PartitionLogs

  /** An empty directory opens if and only if a segment can hold a batch header; the log is then empty,
      in one empty segment from offset 0, whose file has been made. With smaller segments nothing
      opens and no file is touched. */
  lemma OpensIff(opts: Options, files: seq<SegmentFile>)
    ensures opts.segmentBytes < 32 ==> Open(opts, files) == (Err(InvalidArgument), files)
    ensures Open(opts, []).0.Ok? <==> opts.segmentBytes >= 32
    ensures opts.segmentBytes >= 32 ==>
      && Represents(opts, Open(opts, []).0.value, [[]]) && !Open(opts, []).0.value.closed
      && Open(opts, []).1 == [SegmentFile(0, [])]
  {
    FreshRepresented(opts);
  }

  /** A closed log neither takes nor gives anything. */
  lemma ClosedRefuses(opts: Options, st: LogState, records: seq<Record>, offset: i64, maxBytes: nat)
    requires st.closed && st.segments != []
    ensures Append(opts, st, records) == (st, Err(InvalidArgument))
    ensures Read(st, offset, maxBytes) == Err(InvalidArgument)
  {
  }

  /** An append is refused if and only if it has no records, more than there are offsets left, a string
      too long for its size field, or more bytes than a vector can hold; the log is then as it was. */
  lemma AppendRefusedIff(opts: Options, st: LogState, chunks: seq<seq<RecordBatch>>, records: seq<Record>)
    requires Represents(opts, st, chunks) && !st.closed
    ensures var (st', r) := Append(opts, st, records);
      && (r.Err? <==>
            || records == [] || |FlatLog(chunks)| + |records| >= TWO_63
            || PayloadSize(records) >= TWO_63 || exists i :: 0 <= i < |records| && !StringsFit(records[i]))
      && (r.Err? ==> st' == st && (r.error == InvalidArgument || r.error == LengthError))
  {
    hide Represents, Append, FlatLog, StampedAll, PayloadSize, StringsFit, Payload;
    NextCountsRecords(opts, st, chunks);
    AppendRefinesFlatLog(opts, st, chunks, records);
    AcceptsIff(st, FlatLog(chunks), records);
    RefusalCode(st, records);
    assert AllFit(records) <==> !exists i :: 0 <= i < |records| && !StringsFit(records[i]);
  }

  lemma RefusalCode(st: LogState, records: seq<Record>)
    ensures var made := BatchFor(st, records);
      made.Err? ==> made.error == InvalidArgument || made.error == LengthError
  {
    hide PayloadSize, Payload, AllFit;
  }

  /** A read is refused as not found if and only if its offset is not below the end, and as invalid only
      if its offset is negative or its budget too small. */
  lemma ReadRefusedIff(opts: Options, st: LogState, chunks: seq<seq<RecordBatch>>, offset: i64, maxBytes: nat)
    requires Represents(opts, st, chunks) && !st.closed
    ensures var r := Read(st, offset, maxBytes);
      && (r == Err(NotFound) <==> offset >= |FlatLog(chunks)|)
      && (offset < 0 ==> r == Err(InvalidArgument))
      && (r.Err? ==> r.error == NotFound || r.error == InvalidArgument)
      && (r.Err? && 0 <= offset < |FlatLog(chunks)| ==> !AllWithin(chunks, maxBytes))
  {
    hide Represents, FlatLog, Read, AllWithin, SliceOf;
    NextCountsRecords(opts, st, chunks);
    if 0 <= offset < st.next {
      var s, j, i := ReadRefinesFlatLog(opts, st, chunks, offset, maxBytes);
      if AllWithin(chunks, maxBytes) {
        ReadFindsRecord(opts, st, chunks, offset, maxBytes);
      }
    } else {
      PartitionLogs.ReadOutside(st, offset, maxBytes);
    }
  }
}
