/** Whole runs of a commit log: any mix of appends and crashes, from a fresh directory on. */
module LogRuns {
  import opened Basics
  import opened Records
  import opened RecordBatches
  import opened Segments
  import opened LogStates
  import opened LogRecovery

  /** What can happen to a log: an append, or a crash that leaves the first cut bytes of the last
      segment file, followed by an Open in either recovery mode. */
  datatype Event =
    | Write(records: seq<Record>)
    | Crash(cut: nat, strict: bool)

  ghost predicate Step(opts: Options, st: LogState, e: Event, st': LogState) {
    && st.segments != []
    && match e
       case Write(records) => st' == Append(opts, st, records).0
       case Crash(cut, strict) =>
         && cut <= |st.segments[|st.segments| - 1].file|
         && Open(opts.(strictRecovery := strict), CrashFiles(st.segments, cut)).0 == Ok(st')
  }

  ghost predicate IsRun(opts: Options, states: seq<LogState>, events: seq<Event>) {
    && |states| == |events| + 1
    && Open(opts, []).0 == Ok(states[0])
    && forall i :: 0 <= i < |events| ==> StepAt(opts, states, events, i)
  }

  ghost predicate StepAt(opts: Options, states: seq<LogState>, events: seq<Event>, i: nat)
    requires i < |events| && |states| == |events| + 1
  {
    Step(opts, states[i], events[i], states[i + 1])
  }

  /** Which appends a log of these records accepts. */
  predicate Accepts(flat: seq<Record>, records: seq<Record>) {
    records != [] && |records| <= MAX_OFFSET - |flat| && EncodedPayload(records).Ok?
  }

  /** What an event does to the flat sequence of records: an accepted append adds its records at the
      end, a refused one changes nothing; a crash keeps a prefix. */
  ghost predicate FlatStep(flat: seq<Record>, e: Event, flat': seq<Record>) {
    match e
    case Write(records) => flat' == if Accepts(flat, records) then flat + StampedAll(records) else flat
    case Crash(_, _) => flat' <= flat
  }

  type Chunks = seq<seq<RecordBatch>>

  /** A batch added to the last segment, or to a new one if it would make that longer than it may be. */
  function WithBatch(opts: Options, chunks: Chunks, b: RecordBatch): Chunks
    requires chunks != []
  {
    var n := |chunks| - 1;
    if chunks[n] != [] && |FileOf(chunks[n])| + b.batchBytes > opts.segmentBytes then chunks + [[b]]
    else chunks[n := chunks[n] + [b]]
  }

  /** What an event does to the batches of the segments: an append adds one batch, a crash takes batches
      off the end of the last segment. */
  ghost predicate LayoutStep(opts: Options, chunks: Chunks, e: Event, chunks': Chunks)
    requires chunks != []
  {
    var n := |chunks| - 1;
    match e
    case Write(_) => chunks' == chunks || exists b :: Made(b) && chunks' == WithBatch(opts, chunks, b)
    case Crash(_, _) => |chunks'| == |chunks| && chunks'[..n] == chunks[..n] && chunks'[n] <= chunks[n]
  }

  /** The chunks explain every state of the run, and their flat logs step as FlatStep says. */
  ghost predicate Explains(opts: Options, states: seq<LogState>, events: seq<Event>, logs: seq<Chunks>) {
    && |logs| == |states| == |events| + 1
    && logs[0] == [[]]
    && (forall i :: 0 <= i < |logs| ==> Represents(opts, states[i], logs[i]) && !states[i].closed)
    && (forall i :: 0 <= i < |events| ==> FlatStepAt(events, logs, i))
    && forall i :: 0 <= i < |events| ==> LayoutStepAt(opts, events, logs, i)
  }

  ghost predicate FlatStepAt(events: seq<Event>, logs: seq<Chunks>, i: nat)
    requires i < |events| && |logs| == |events| + 1
  {
    FlatStep(FlatLog(logs[i]), events[i], FlatLog(logs[i + 1]))
  }

  ghost predicate LayoutStepAt(opts: Options, events: seq<Event>, logs: seq<Chunks>, i: nat)
    requires i < |events| && |logs| == |events| + 1
  {
    logs[i] != [] && LayoutStep(opts, logs[i], events[i], logs[i + 1])
  }

  lemma FreshRepresented(opts: Options)
    ensures Open(opts, []).0.Ok? ==> Represents(opts, Open(opts, []).0.value, [[]])
  {
    FreshHolds(opts, 0);
    hide Holds;
  }

  lemma AcceptsIff(st: LogState, flat: seq<Record>, records: seq<Record>)
    requires !st.closed && st.next == |flat|
    ensures BatchFor(st, records).Ok? <==> Accepts(flat, records)
  {
    hide EncodedPayload;
  }

  lemma AppendKeepsOpen(opts: Options, st: LogState, records: seq<Record>)
    requires st.segments != []
    ensures Append(opts, st, records).0.closed == st.closed
  {
    hide BatchFor, Written;
  }

  lemma AppendLays(opts: Options, st: LogState, chunks: Chunks, records: seq<Record>)
    requires Represents(opts, st, chunks)
    ensures var made := BatchFor(st, records);
      LayoutStep(opts, chunks, Write(records),
                 if made.Err? then chunks else ChunksAfter(opts, st, chunks, made.value))
  {
    hide Represents, BatchFor, FileOf, Made, StampedAll;
    var made := BatchFor(st, records);
    if made.Ok? {
      NextNotNegative(opts, st, chunks);
      BatchForMade(st, records);
      LastFile(opts, st, chunks);
      var b := made.value;
      assert [] + [b] == [b] && (chunks + [[]])[|chunks| := [b]] == chunks + [[b]];
      assert ChunksAfter(opts, st, chunks, made.value) == WithBatch(opts, chunks, made.value);
    }
  }

  lemma LastFile(opts: Options, st: LogState, chunks: Chunks)
    requires Represents(opts, st, chunks)
    ensures var n := |chunks| - 1;
      st.segments[n].file == FileOf(chunks[n]) && (chunks[n] != [] <==> |FileOf(chunks[n])| > 0)
  {
    hide Made;
    var n := |chunks| - 1;
    assert Holds(opts, st.segments[n], chunks[n]);
    if chunks[n] != [] {
      assert Made(chunks[n][|chunks[n]| - 1]);
      MadeBatchBytes(chunks[n][|chunks[n]| - 1]);
    }
  }

  lemma CrashLays(opts: Options, chunks: Chunks, cut: nat, strict: bool)
    requires chunks != []
    ensures LayoutStep(opts, chunks, Crash(cut, strict), Surviving(chunks, cut))
  {
    hide WholeBatches;
  }

  lemma OneStep(opts: Options, st: LogState, chunks: Chunks, e: Event, st': LogState) returns (chunks': Chunks)
    requires opts.segmentBytes >= BATCH_HEADER_BYTES
    requires Represents(opts, st, chunks) && !st.closed && Step(opts, st, e, st')
    ensures Represents(opts, st', chunks') && !st'.closed && FlatStep(FlatLog(chunks), e, FlatLog(chunks'))
    ensures LayoutStep(opts, chunks, e, chunks')
  {
    hide Represents, FlatLog, Append, BatchFor, Open, CrashFiles, ChunksAfter, Surviving, StampedAll, WholeBatches,
      Accepts, LayoutStep;
    match e
    case Write(records) =>
      AppendRefinesFlatLog(opts, st, chunks, records);
      AppendKeepsOpen(opts, st, records);
      NextCountsRecords(opts, st, chunks);
      AcceptsIff(st, FlatLog(chunks), records);
      chunks' := if BatchFor(st, records).Err? then chunks
                 else ChunksAfter(opts, st, chunks, BatchFor(st, records).value);
      AppendLays(opts, st, chunks, records);
    case Crash(cut, strict) =>
      var found := CrashKeepsWholeBatches(opts, st, chunks, cut);
      chunks' := Surviving(chunks, cut);
      CrashLays(opts, chunks, cut, strict);
  }

  /** In every run, every state is a flat sequence of records laid out in indexed segments, and each
      event changes that sequence only as FlatStep allows. */
  lemma {:induction false} RunsRefineFlatLog(opts: Options, states: seq<LogState>, events: seq<Event>)
    returns (logs: seq<Chunks>)
    requires IsRun(opts, states, events)
    ensures Explains(opts, states, events, logs)
    decreases |events|
  {
    hide Represents, FlatLog, Step, FlatStep, LayoutStep;
    RunOptions(opts, states, events);
    if events == [] {
      FreshRepresented(opts);
      logs := [[[]]];
    } else {
      var n := |events| - 1;
      var earlier, past := states[..n + 1], events[..n];
      forall i | 0 <= i < n ensures StepAt(opts, earlier, past, i) {
        assert StepAt(opts, states, events, i);
      }
      var before := RunsRefineFlatLog(opts, earlier, past);
      assert StepAt(opts, states, events, n);
      var last := OneStep(opts, states[n], before[n], events[n], states[n + 1]);
      logs := before + [last];
      forall i | 0 <= i < |events| ensures FlatStepAt(events, logs, i) {
        if i < n { assert FlatStepAt(past, before, i); }
      }
      forall i | 0 <= i < |events| ensures LayoutStepAt(opts, events, logs, i) {
        if i < n { assert LayoutStepAt(opts, past, before, i); }
      }
    }
  }

  lemma RunOptions(opts: Options, states: seq<LogState>, events: seq<Event>)
    requires IsRun(opts, states, events)
    ensures opts.segmentBytes >= BATCH_HEADER_BYTES
  {
    hide StepAt;
  }

  /** In every reachable state each offset below next_offset can be read back as the record the flat
      log has there, given a budget that fits the stored batches. */
  lemma ReachableReads(opts: Options, states: seq<LogState>, events: seq<Event>, offset: i64, maxBytes: nat)
    returns (logs: seq<Chunks>)
    requires IsRun(opts, states, events)
    ensures Explains(opts, states, events, logs)
    ensures var st, chunks := states[|events|], logs[|events|];
      |FlatLog(chunks)| == st.next &&
      (0 <= offset < st.next && AllWithin(chunks, maxBytes) ==>
        Read(st, offset, maxBytes).Ok? &&
        var b := Read(st, offset, maxBytes).value;
        && b.baseOffset <= offset < b.baseOffset + |b.records| && SliceOf(FlatLog(chunks), b)
        && FlatLog(chunks)[offset] == b.records[offset - b.baseOffset])
  {
    hide IsRun, Represents, FlatLog, AllWithin, Read;
    logs := RunsRefineFlatLog(opts, states, events);
    var st, chunks := states[|events|], logs[|events|];
    NextCountsRecords(opts, st, chunks);
    if 0 <= offset < st.next && AllWithin(chunks, maxBytes) {
      ReadFindsRecord(opts, st, chunks, offset, maxBytes);
    }
  }
}
