/** When a commit log begins a new segment: no sooner and no later than the segment size asks for. */
module LogRolling {
  import opened Records
  import opened RecordBatches
  import opened Segments
  import opened OffsetIndexes
  import opened LogStates
  import opened LogRuns

  // ---- One append ----

  /** An accepted append begins a new segment if and only if the last one has batches and would become
      longer than segmentBytes; otherwise it goes to the end of the last one. */
  lemma AppendRollsIff(opts: Options, st: LogState, chunks: Chunks, records: seq<Record>)
    requires Represents(opts, st, chunks)
    ensures var (st', r) := Append(opts, st, records);
      var bs := chunks[|chunks| - 1];
      r.Ok? ==>
        if bs != [] && |FileOf(bs)| + BATCH_HEADER_BYTES + PayloadSize(records) > opts.segmentBytes
        then |st'.segments| == |st.segments| + 1 && r.value.position == 0 && r.value.segmentBase == st.next
        else |st'.segments| == |st.segments| && r.value.position == |FileOf(bs)|
             && r.value.segmentBase == st.segments[|st.segments| - 1].base
  {
    hide Represents, FileOf, PayloadSize, BatchFor, Written;
    LastFile(opts, st, chunks);
    if BatchFor(st, records).Ok? {
      BatchForSize(st, records);
      WrittenWhere(opts, RolledIfFull(opts, st.segments, BatchFor(st, records).value), BatchFor(st, records).value);
    }
  }

  lemma BatchForSize(st: LogState, records: seq<Record>)
    ensures BatchFor(st, records).Ok? ==>
      BatchFor(st, records).value.batchBytes == BATCH_HEADER_BYTES + PayloadSize(records)
      && BatchFor(st, records).value.baseOffset == st.next
  {
    hide PayloadSize, StampedAll;
  }

  lemma WrittenWhere(opts: Options, segments: seq<SegmentState>, batch: RecordBatch)
    requires segments != []
    ensures var (after, r) := Written(opts, segments, batch);
      && |after| == |segments|
      && (r.Ok? ==> r.value.position == |segments[|segments| - 1].file|
                    && r.value.segmentBase == segments[|segments| - 1].base)
  {
    hide EncodedBatch, Appended;
  }

  // ---- Whole runs ----

  /** Only a segment that is a single batch may be longer than segmentBytes. */
  predicate CompactAt(opts: Options, chunks: Chunks, s: nat)
    requires s < |chunks|
  {
    |chunks[s]| >= 2 ==> |FileOf(chunks[s])| <= opts.segmentBytes
  }

  predicate Compact(opts: Options, chunks: Chunks) {
    && (forall s: nat :: s < |chunks| ==> CompactAt(opts, chunks, s))
    && forall s: nat :: s < |chunks| - 1 ==> chunks[s] != []
  }

  lemma LongerFile(bs: seq<RecordBatch>, b: RecordBatch)
    requires Made(b)
    ensures |FileOf(bs + [b])| == |FileOf(bs)| + b.batchBytes
  {
    hide Made, BatchBytes;
    MadeBatchBytes(b);
    FileNext(bs, b);
  }

  lemma ShorterFile(bs: seq<RecordBatch>, bs': seq<RecordBatch>)
    requires bs' <= bs
    ensures |FileOf(bs')| <= |FileOf(bs)|
  {
    hide FileOf;
    FileOfConcat(bs', bs[|bs'|..]);
    assert bs == bs' + bs[|bs'|..];
  }

  lemma StepCompact(opts: Options, chunks: Chunks, e: Event, chunks': Chunks)
    requires chunks != [] && Compact(opts, chunks) && LayoutStep(opts, chunks, e, chunks')
    ensures Compact(opts, chunks')
  {
    hide FileOf, Made;
    var n := |chunks| - 1;
    match e
    case Write(_) =>
      if chunks' != chunks {
        var b :| Made(b) && chunks' == WithBatch(opts, chunks, b);
        LongerFile(chunks[n], b);
        forall s: nat | s < |chunks'| ensures CompactAt(opts, chunks', s) {
          if s < |chunks| { assert CompactAt(opts, chunks, s); }
        }
      }
    case Crash(_, _) =>
      ShorterFile(chunks[n], chunks'[n]);
      forall s: nat | s < |chunks'| ensures CompactAt(opts, chunks', s) {
        assert s < n ==> chunks'[s] == chunks'[..n][s] == chunks[s];
        assert CompactAt(opts, chunks, s);
      }
      forall s: nat | s < n ensures chunks'[s] != [] {
        assert chunks'[s] == chunks'[..n][s] == chunks[s];
      }
  }

  /** In every run, crashes included, a segment of two batches or more is no longer than segmentBytes,
      and no segment but the last is empty. */
  lemma {:induction false} RunCompact(opts: Options, states: seq<LogState>, events: seq<Event>, logs: seq<Chunks>,
                                      n: nat)
    requires Explains(opts, states, events, logs) && n < |logs|
    ensures Compact(opts, logs[n])
  {
    hide FileOf, Represents, LayoutStep, FlatStep, FlatLog, Compact;
    if n == 0 {
      FreshCompact(opts);
    } else {
      RunCompact(opts, states, events, logs, n - 1);
      assert LayoutStepAt(opts, events, logs, n - 1);
      StepCompact(opts, logs[n - 1], events[n - 1], logs[n]);
    }
  }

  lemma FreshCompact(opts: Options)
    ensures Compact(opts, [[]])
  {
  }

  /** Segment t was begun because its first batch would not have fitted the one before. */
  predicate FullBefore(opts: Options, chunks: Chunks, t: nat)
    requires 0 < t < |chunks|
  {
    && chunks[t - 1] != [] && chunks[t] != []
    && |FileOf(chunks[t - 1])| + chunks[t][0].batchBytes > opts.segmentBytes
  }

  lemma StepFull(opts: Options, chunks: Chunks, e: Event, chunks': Chunks, t: nat)
    requires chunks != [] && LayoutStep(opts, chunks, e, chunks') && e.Write? && 0 < t < |chunks'|
    requires t < |chunks| ==> FullBefore(opts, chunks, t)
    ensures FullBefore(opts, chunks', t)
  {
    hide FileOf, Made;
  }

  /** In every run, between crashes, every segment that is begun follows one that together with its first
      batch would have been longer than segmentBytes. */
  lemma {:induction false} RunFull(opts: Options, states: seq<LogState>, events: seq<Event>, logs: seq<Chunks>,
                                   i: nat, j: nat, t: nat)
    requires Explains(opts, states, events, logs) && i <= j < |logs|
    requires forall k :: i <= k < j ==> events[k].Write?
    requires |logs[i]| <= t < |logs[j]|
    ensures logs[i] != [] && FullBefore(opts, logs[j], t)
    decreases j
  {
    hide FileOf, Represents, LayoutStep, FlatStep, FlatLog, FullBefore;
    assert LayoutStepAt(opts, events, logs, j - 1) && LayoutStepAt(opts, events, logs, i);
    if t < |logs[j - 1]| {
      RunFull(opts, states, events, logs, i, j - 1, t);
    }
    StepFull(opts, logs[j - 1], events[j - 1], logs[j], t);
  }
}
