/** The commit log of one partition, over mutable segments and indexes. */
module CommitLogs {
  import opened Basics
  import opened Records
  import opened RecordBatches
  import opened Segments
  import opened OffsetIndexes
  import opened LogStates
  import opened LogRecovery

  /** The segments and their indexes as a value. */
  ghost function ViewOf(segments: seq<Segment>, indexes: seq<OffsetIndex>): (v: seq<SegmentState>)
    requires |segments| == |indexes|
    reads segments, indexes
    ensures |v| == |segments|
  {
    if segments == [] then []
    else
      var n := |segments| - 1;
      ViewOf(segments[..n], indexes[..n]) + [SegmentState(segments[n].baseOffset, segments[n].file, indexes[n].entries)]
  }

  lemma {:induction false} ViewAt(segments: seq<Segment>, indexes: seq<OffsetIndex>, i: nat)
    requires i < |segments| == |indexes|
    ensures ViewOf(segments, indexes)[i] == SegmentState(segments[i].baseOffset, segments[i].file, indexes[i].entries)
  {
    if i < |segments| - 1 {
      ViewAt(segments[..|segments| - 1], indexes[..|segments| - 1], i);
    }
  }

  /** Distinct, open segments, each with its own index for the same base offset. */
  ghost predicate Sound(segments: seq<Segment>, indexes: seq<OffsetIndex>, interval: nat)
    reads segments, indexes
    ensures Sound(segments, indexes, interval) ==> |segments| == |indexes|
  {
    && |segments| == |indexes|
    && (segments != [] ==>
          var n := |segments| - 1;
          && Sound(segments[..n], indexes[..n], interval)
          && segments[n] !in segments[..n] && indexes[n] !in indexes[..n]
          && SoundPair(segments[n], indexes[n], interval))
  }

  ghost predicate SoundPair(segment: Segment, index: OffsetIndex, interval: nat)
    reads segment, index
  {
    && segment.Valid() && !segment.closed
    && index.Valid() && index.intervalBytes == interval && index.baseOffset == segment.baseOffset
  }

  lemma {:induction false} SoundAt(segments: seq<Segment>, indexes: seq<OffsetIndex>, interval: nat, i: nat)
    requires Sound(segments, indexes, interval) && i < |segments|
    ensures SoundPair(segments[i], indexes[i], interval)
  {
    if i < |segments| - 1 {
      SoundAt(segments[..|segments| - 1], indexes[..|segments| - 1], interval, i);
    }
  }

  function Bases(segments: seq<Segment>): (keys: seq<int>)
    ensures |keys| == |segments| && forall i :: 0 <= i < |keys| ==> keys[i] == segments[i].baseOffset
  {
    if segments == [] then [] else Bases(segments[..|segments| - 1]) + [segments[|segments| - 1].baseOffset]
  }

  lemma {:induction false} SegmentForView(segments: seq<Segment>, indexes: seq<OffsetIndex>, offset: i64, k: nat)
    requires k <= |segments| == |indexes|
    requires forall i :: 0 <= i < k ==> segments[i].baseOffset <= offset
    requires forall i :: k <= i < |segments| ==> offset < segments[i].baseOffset
    ensures SegmentFor(ViewOf(segments, indexes), offset) == if k == 0 then Err(NotFound) else Ok(k - 1)
  {
    var n := |segments| - 1;
    if k < |segments| {
      assert ViewOf(segments, indexes)[..n] == ViewOf(segments[..n], indexes[..n]);
      SegmentForView(segments[..n], indexes[..n], offset, k);
    }
  }

  /** RecoverSegment: scan the file, index every batch, cut the unreadable tail. */
  method RecoverSegment(opts: Options, segment: Segment, index: OffsetIndex, active: bool) returns (r: Result<i64>)
    requires segment.Valid() && !segment.closed && index.Valid()
    requires index.intervalBytes == opts.Interval() && index.baseOffset == segment.baseOffset
    modifies segment, index
    ensures segment.Valid() && !segment.closed && index.Valid()
    ensures var recovered := Recover(opts, segment.baseOffset, old(segment.file), active, 0, segment.baseOffset, []);
      if recovered.Err? then r == Err(recovered.error) && segment.file == old(segment.file)
      else r == Ok(recovered.value.next) && segment.file == old(segment.file)[..recovered.value.keep]
                                         && index.entries == recovered.value.entries
  {
    hide BatchAt, DeclaredBytes, Appended;
    index.Clear();
    var position: nat := 0;
    var next: i64 := segment.baseOffset;
    var fileSize := segment.writePosition;
    ghost var recovered := Recover(opts, segment.baseOffset, segment.file, active, 0, segment.baseOffset, []);
    while position < fileSize
      invariant position <= fileSize == |segment.file|
      invariant segment.Valid() && !segment.closed && segment.file == old(segment.file) && index.Valid()
      invariant recovered == Recover(opts, segment.baseOffset, segment.file, active, position, next, index.entries)
    {
      var remaining := fileSize - position;
      var batch := segment.Read(position, remaining);
      if batch.Err? {
        if opts.strictRecovery {
          if !active {
            return Err(batch.error);
          }
          if remaining < BATCH_HEADER_BYTES {
            break;
          }
          var header := FileRead(segment.file, position, BATCH_HEADER_BYTES);
          var declared := PeekRecordBatchBytes(header);
          if declared.Err? || declared.value <= remaining {
            return Err(batch.error);
          }
        }
        break;
      }
      var status := index.MaybeAppend(batch.value.baseOffset, position);
      if status.Err? {
        return Err(status.error);
      }
      position := position + batch.value.batchBytes;
      next := Max(next, Plus64(batch.value.baseOffset, ToI64(batch.value.recordCount)));
    }
    assert recovered == Ok(Recovered(position, next, index.entries));
    if position != fileSize {
      var status := segment.Truncate(position);
    }
    return Ok(next);
  }

  class CommitLog {
    const options: Options
    var segments: seq<Segment>
    var indexes: seq<OffsetIndex>
    var nextOffset: i64
    var closed: bool

    ghost predicate Valid()
      reads this, segments, indexes
      ensures Valid() ==> segments != [] && |segments| == |indexes|
    {
      && segments != []
      && Sound(segments, indexes, options.Interval())
      && Sorted(Bases(segments))
      && 0 <= segments[|segments| - 1].baseOffset <= nextOffset
    }

    /** The log as a value. */
    ghost function View(): LogState
      requires |segments| == |indexes|
      reads this, segments, indexes
    {
      LogState(ViewOf(segments, indexes), nextOffset, closed)
    }

    constructor (opts: Options, segs: seq<Segment>, idxs: seq<OffsetIndex>, next: i64)
      ensures options == opts && segments == segs && indexes == idxs && nextOffset == next && !closed
    {
      options := opts;
      segments := segs;
      indexes := idxs;
      nextOffset := next;
      closed := false;
    }

    /** FindSegmentIndex: binary search over the base offsets. */
    method FindSegmentIndex(offset: i64) returns (r: Result<nat>)
      requires Valid() && !closed
      ensures r == SegmentFor(View().segments, offset)
    {
      var k := UpperBound(Bases(segments), offset);
      forall i | 0 <= i < k ensures segments[i].baseOffset <= offset {
        assert Bases(segments)[i] <= offset;
      }
      forall i | k <= i < |segments| ensures offset < segments[i].baseOffset {
        assert offset < Bases(segments)[i];
      }
      SegmentForView(segments, indexes, offset, k);
      if k == 0 {
        return Err(NotFound);
      }
      return Ok(k - 1);
    }

    method Read(offset: i64, maxBytes: nat) returns (r: Result<RecordBatch>)
      requires Valid()
      ensures r == LogStates.Read(View(), offset, maxBytes)
    {
      hide BatchAt, Contains, Floor, SegmentFor, ViewOf, Bases;
      if closed {
        return Err(InvalidArgument);
      }
      if offset < 0 {
        return Err(InvalidArgument);
      }
      if offset >= nextOffset {
        return Err(NotFound);
      }
      var found := FindSegmentIndex(offset);
      if found.Err? {
        return Err(found.error);
      }
      var segment, index := segments[found.value], indexes[found.value];
      ViewAt(segments, indexes, found.value);
      SoundAt(segments, indexes, options.Interval(), found.value);
      var position: nat := 0;
      var floor := index.FindFloor(offset);
      if floor.Ok? {
        position := floor.value.position;
      } else if floor.error != NotFound {
        assert false;
      }
      ghost var result := Scan(segment.file, position, offset, maxBytes);
      while position < segment.writePosition
        invariant Scan(segment.file, position, offset, maxBytes) == result
        decreases |segment.file| - position
      {
        var batch := segment.Read(position, maxBytes);
        if batch.Err? {
          return Err(batch.error);
        }
        if Contains(batch.value, offset) {
          return Ok(batch.value);
        }
        position := position + batch.value.batchBytes;
      }
      return Err(NotFound);
    }

    /** RollSegment: a fresh segment file and index at the end. No file of that name exists, since
        its base offset is past every loaded one. */
    method RollSegment(base: i64)
      requires Valid() && !closed && base == nextOffset
      modifies this
      ensures Valid() && closed == old(closed) && nextOffset == old(nextOffset)
      ensures |segments| == |old(segments)| + 1 && |indexes| == |old(indexes)| + 1
      ensures segments[..|old(segments)|] == old(segments) && indexes[..|old(indexes)|] == old(indexes)
      ensures fresh(segments[|old(segments)|]) && fresh(indexes[|old(indexes)|])
      ensures View() == old(View()).(segments := Rolled(old(View()).segments, base))
    {
      hide Sorted;
      ghost var n := |segments|;
      ghost var was := Bases(segments);
      var segment := new Segment(base, []);
      var index := new OffsetIndex(base, options.Interval());
      segments := segments + [segment];
      indexes := indexes + [index];
      assert segments[..n] == old(segments) && indexes[..n] == old(indexes);
      assert Bases(segments)[..n] == was;
      SortedSnoc(was, base);
    }

    /** Write a batch to the last segment and index it. */
    method WriteBatch(batch: RecordBatch) returns (r: Result<AppendResult>)
      requires Valid() && !closed && batch.baseOffset == nextOffset
      modifies segments[|segments| - 1], indexes[|indexes| - 1]
      ensures |segments| == |indexes| && Sound(segments, indexes, options.Interval())
      ensures (ViewOf(segments, indexes), r) == Written(options, old(ViewOf(segments, indexes)), batch)
    {
      hide EncodedBatch, Appended;
      ghost var n := |segments| - 1;
      var target, index := segments[|segments| - 1], indexes[|indexes| - 1];
      ghost var prefix := ViewOf(segments[..n], indexes[..n]);
      ghost var was := SegmentState(target.baseOffset, target.file, index.entries);
      assert ViewOf(segments, indexes) == prefix + [was];
      var position := target.Append(batch);
      ReplaceLast(prefix, was, SegmentState(target.baseOffset, target.file, index.entries));
      assert ViewOf(segments[..n], indexes[..n]) == prefix;
      if position.Err? {
        return Err(position.error);
      }
      var status := index.MaybeAppend(batch.baseOffset, position.value);
      ReplaceLast(prefix, was, SegmentState(target.baseOffset, target.file, index.entries));
      assert ViewOf(segments[..n], indexes[..n]) == prefix;
      if status.Err? {
        return Err(status.error);
      }
      return Ok(AppendResult(batch.baseOffset, position.value, target.baseOffset));
    }

    /** Roll if the active segment is full, write the batch, advance next_offset. */
    method AppendBatch(batch: RecordBatch) returns (r: Result<AppendResult>)
      requires Valid() && !closed && batch.baseOffset == nextOffset && nextOffset + batch.recordCount <= MAX_OFFSET
      modifies this, segments, indexes
      ensures Valid() && !closed
      ensures (View().segments, r) == Written(options, RolledIfFull(options, old(View()).segments, batch), batch)
      ensures nextOffset == if r.Ok? then old(nextOffset) + batch.recordCount else old(nextOffset)
    {
      hide Written, ViewOf, Bases, Sorted, Sound;
      var active := segments[|segments| - 1];
      SoundAt(segments, indexes, options.Interval(), |segments| - 1);
      ViewAt(segments, indexes, |segments| - 1);
      if active.writePosition > 0 && active.writePosition + batch.batchBytes > options.segmentBytes {
        RollSegment(batch.baseOffset);
      }
      r := WriteBatch(batch);
      if r.Ok? {
        nextOffset := nextOffset + batch.recordCount;
      }
    }

    method Append(records: seq<Record>) returns (r: Result<AppendResult>)
      requires Valid()
      modifies this, segments, indexes
      ensures Valid()
      ensures (View(), r) == LogStates.Append(options, old(View()), records)
    {
      hide MadeBatch, Written, ViewOf, Sound, Sorted, Bases, RolledIfFull, StampedAll, PayloadSize;
      if closed {
        return Err(InvalidArgument);
      }
      if records == [] {
        return Err(InvalidArgument);
      }
      if |records| > MAX_OFFSET - nextOffset {
        return Err(InvalidArgument);
      }
      var made := MakeRecordBatch(nextOffset, records);
      if made.Err? {
        return Err(made.error);
      }
      MadeCount(nextOffset, records);
      r := AppendBatch(made.value);
    }

    method Close()
      requires Valid()
      modifies this
      ensures Valid() && View() == old(View()).(closed := true)
    {
      closed := true;
    }
  }

  /** What a directory listing gives once parsed and sorted. */
  ghost predicate Listing(files: seq<SegmentFile>) {
    && (forall i :: 0 <= i < |files| ==> files[i].base >= 0)
    && (forall i, j :: 0 <= i < j < |files| ==> files[i].base <= files[j].base)
  }

  /** A log with the one empty segment 00...0.log. */
  method CreateFirstSegment(opts: Options) returns (log: CommitLog)
    ensures fresh(log) && log.Valid() && log.options == opts
    ensures log.View() == LogState(Rolled([], 0), 0, false)
  {
    var segment := new Segment(0, []);
    var index := new OffsetIndex(0, opts.Interval());
    log := new CommitLog(opts, [segment], [index], 0);
    assert log.segments[..0] == [] && log.indexes[..0] == [];
    assert Sound([], [], opts.Interval());
  }

  lemma NoSegments(interval: nat)
    ensures Sound([], [], interval) && ViewOf([], []) == []
  {
  }

  lemma Extended(segments: seq<Segment>, indexes: seq<OffsetIndex>, segment: Segment, index: OffsetIndex, interval: nat)
    requires Sound(segments, indexes, interval) && SoundPair(segment, index, interval)
    requires segment !in segments && index !in indexes
    ensures Sound(segments + [segment], indexes + [index], interval)
    ensures ViewOf(segments + [segment], indexes + [index])
         == ViewOf(segments, indexes) + [SegmentState(segment.baseOffset, segment.file, index.entries)]
  {
    assert (segments + [segment])[..|segments|] == segments && (indexes + [index])[..|indexes|] == indexes;
  }

  /** Open one segment file and recover it. */
  method LoadSegment(opts: Options, file: SegmentFile, active: bool)
    returns (r: Result<i64>, segment: Segment, index: OffsetIndex)
    requires file.base >= 0
    ensures fresh(segment) && fresh(index)
    ensures var recovered := Recover(opts, file.base, file.content, active, 0, file.base, []);
      if recovered.Err? then r == Err(recovered.error)
      else
        && r == Ok(recovered.value.next) && SoundPair(segment, index, opts.Interval())
        && segment.baseOffset == file.base && segment.file == file.content[..recovered.value.keep]
        && index.entries == recovered.value.entries
  {
    hide Recover;
    segment := new Segment(file.base, file.content);
    index := new OffsetIndex(file.base, opts.Interval());
    r := RecoverSegment(opts, segment, index, active);
  }

  lemma LoadFailure(opts: Options, files: seq<SegmentFile>, i: nat, segments: seq<SegmentState>, next: i64)
    requires i < |files|
    requires Recover(opts, files[i].base, files[i].content, i == |files| - 1, 0, files[i].base, []).Err?
    ensures LoadFrom(opts, files, i, segments, next) ==
      (Err(Recover(opts, files[i].base, files[i].content, i == |files| - 1, 0, files[i].base, []).error), files[i..])
  {
    hide Recover;
  }

  /** What loading the rest will make of the whole, with the files done so far in front. */
  predicate LoadedSoFar(whole: (Result<LogState>, seq<SegmentFile>), done: seq<SegmentFile>,
                        rest: (Result<LogState>, seq<SegmentFile>)) {
    whole.0 == rest.0 && whole.1 == done + rest.1
  }

  lemma OneMoreLoaded(whole: (Result<LogState>, seq<SegmentFile>), done: seq<SegmentFile>, file: SegmentFile,
                      st: Result<LogState>, rest: seq<SegmentFile>)
    requires LoadedSoFar(whole, done, (st, [file] + rest))
    ensures LoadedSoFar(whole, done + [file], (st, rest))
  {
  }

  lemma NothingLoaded(whole: (Result<LogState>, seq<SegmentFile>))
    ensures LoadedSoFar(whole, [], whole)
  {
    assert [] + whole.1 == whole.1;
  }

  lemma RestLoaded(whole: (Result<LogState>, seq<SegmentFile>), done: seq<SegmentFile>,
                   st: Result<LogState>, rest: seq<SegmentFile>)
    requires LoadedSoFar(whole, done, (st, rest))
    ensures whole == (st, done + rest)
  {
  }

  /** Where the loading loop stands: the objects are sound and hold what the first files held, and
      loading the rest from there makes up the whole. */
  ghost predicate Progress(opts: Options, files: seq<SegmentFile>, segments: seq<Segment>, indexes: seq<OffsetIndex>,
                           next: i64, whole: (Result<LogState>, seq<SegmentFile>), done: seq<SegmentFile>)
    reads segments, indexes
  {
    && Sound(segments, indexes, opts.Interval()) && BasesOf(segments, files)
    && (segments != [] ==> files[|segments| - 1].base <= next)
    && LoadedSoFar(whole, done, LoadFrom(opts, files, |segments|, ViewOf(segments, indexes), next))
  }

  lemma Started(opts: Options, files: seq<SegmentFile>)
    ensures Progress(opts, files, [], [], 0, LoadFrom(opts, files, 0, [], 0), [])
  {
    hide LoadFrom, LoadedSoFar;
    NoSegments(opts.Interval());
    NothingLoaded(LoadFrom(opts, files, 0, [], 0));
  }

  lemma Failed(opts: Options, files: seq<SegmentFile>, segments: seq<Segment>, indexes: seq<OffsetIndex>,
               next: i64, whole: (Result<LogState>, seq<SegmentFile>), done: seq<SegmentFile>)
    requires Progress(opts, files, segments, indexes, next, whole, done) && |segments| < |files|
    requires var file := files[|segments|];
      Recover(opts, file.base, file.content, |segments| == |files| - 1, 0, file.base, []).Err?
    ensures var file := files[|segments|];
      whole == (Err(Recover(opts, file.base, file.content, |segments| == |files| - 1, 0, file.base, []).error),
                done + files[|segments|..])
  {
    hide Recover, LoadFrom, LoadedSoFar, Sound, ViewOf;
    var i := |segments|;
    LoadFailure(opts, files, i, ViewOf(segments, indexes), next);
    var recovered := Recover(opts, files[i].base, files[i].content, i == |files| - 1, 0, files[i].base, []);
    RestLoaded(whole, done, Err(recovered.error), files[i..]);
  }

  lemma Advanced(opts: Options, files: seq<SegmentFile>, segments: seq<Segment>, indexes: seq<OffsetIndex>,
                 next: i64, whole: (Result<LogState>, seq<SegmentFile>), done: seq<SegmentFile>,
                 segment: Segment, index: OffsetIndex)
    requires Progress(opts, files, segments, indexes, next, whole, done) && |segments| < |files|
    requires segment !in segments && index !in indexes && SoundPair(segment, index, opts.Interval())
    requires var file := files[|segments|];
      var recovered := Recover(opts, file.base, file.content, |segments| == |files| - 1, 0, file.base, []);
      && recovered.Ok? && segment.baseOffset == file.base
      && segment.file == file.content[..recovered.value.keep] && index.entries == recovered.value.entries
    ensures var file := files[|segments|];
      var recovered := Recover(opts, file.base, file.content, |segments| == |files| - 1, 0, file.base, []);
      Progress(opts, files, segments + [segment], indexes + [index], Max(next, recovered.value.next),
               whole, done + [SegmentFile(file.base, segment.file)])
  {
    hide Recover, LoadFrom, LoadedSoFar, Sound, SoundPair, ViewOf, BasesOf;
    var i, view := |segments|, ViewOf(segments, indexes);
    var file := files[i];
    var r := Recover(opts, file.base, file.content, i == |files| - 1, 0, file.base, []).value;
    LoadStep(opts, files, i, view, next);
    Extended(segments, indexes, segment, index, opts.Interval());
    BasesExtended(segments, segment, files);
    var rest := LoadFrom(opts, files, i + 1, view + [SegmentState(file.base, segment.file, index.entries)],
                         Max(next, r.next));
    OneMoreLoaded(whole, done, SegmentFile(file.base, segment.file), rest.0, rest.1);
  }

  lemma Completed(opts: Options, files: seq<SegmentFile>, segments: seq<Segment>, indexes: seq<OffsetIndex>,
                  next: i64, whole: (Result<LogState>, seq<SegmentFile>), done: seq<SegmentFile>)
    requires Progress(opts, files, segments, indexes, next, whole, done)
    requires Listing(files) && |segments| == |files| && files != []
    ensures whole == (Ok(LogState(ViewOf(segments, indexes), next, false)), done)
    ensures Sound(segments, indexes, opts.Interval()) && Sorted(Bases(segments))
    ensures 0 <= segments[|segments| - 1].baseOffset <= next
  {
    hide LoadFrom, LoadedSoFar, Sound, ViewOf, BasesOf, Sorted, Bases;
    LoadEnd(opts, files, ViewOf(segments, indexes), next);
    RestLoaded(whole, done, Ok(LogState(ViewOf(segments, indexes), next, false)), []);
    SortedBases(segments, files);
    assert done + [] == done;
  }

  /** Load every segment file in order; files already cut stay cut when a later one fails. */
  method LoadSegments(opts: Options, files: seq<SegmentFile>) returns (r: Result<CommitLog>, after: seq<SegmentFile>)
    requires Listing(files) && files != []
    ensures var (st, files') := LoadFrom(opts, files, 0, [], 0);
      && after == files'
      && if st.Err? then r == Err(st.error)
         else r.Ok? && fresh(r.value) && r.value.Valid() && r.value.View() == st.value && r.value.options == opts
  {
    hide Recover, LoadFrom, Sorted, Bases, SoundPair, Sound, ViewOf, Progress;
    var segments: seq<Segment>, indexes: seq<OffsetIndex> := [], [];
    var next: i64 := 0;
    ghost var whole := LoadFrom(opts, files, 0, [], 0);
    var done: seq<SegmentFile> := [];
    Started(opts, files);
    while |segments| < |files|
      invariant |segments| <= |files| && fresh(segments) && fresh(indexes)
      invariant Progress(opts, files, segments, indexes, next, whole, done)
    {
      var file := files[|segments|];
      var recovery, segment, index := LoadSegment(opts, file, |segments| == |files| - 1);
      if recovery.Err? {
        Failed(opts, files, segments, indexes, next, whole, done);
        return Err(recovery.error), done + files[|segments|..];
      }
      Advanced(opts, files, segments, indexes, next, whole, done, segment, index);
      segments := segments + [segment];
      indexes := indexes + [index];
      next := Max(next, recovery.value);
      done := done + [SegmentFile(file.base, segment.file)];
    }
    Completed(opts, files, segments, indexes, next, whole, done);
    var log := new CommitLog(opts, segments, indexes, next);
    return Ok(log), done;
  }

  /** CommitLog::Open: load the segment files found, or create the first one. */
  method OpenCommitLog(opts: Options, files: seq<SegmentFile>) returns (r: Result<CommitLog>, after: seq<SegmentFile>)
    requires Listing(files)
    ensures var (st, files') := Open(opts, files);
      && after == files'
      && if st.Err? then r == Err(st.error)
         else r.Ok? && fresh(r.value) && r.value.Valid() && r.value.View() == st.value && r.value.options == opts
  {
    hide LoadFrom;
    if opts.segmentBytes < BATCH_HEADER_BYTES {
      return Err(InvalidArgument), files;
    }
    if files == [] {
      var log := CreateFirstSegment(opts);
      return Ok(log), [SegmentFile(0, [])];
    }
    r, after := LoadSegments(opts, files);
  }

  /** The segments are those of the first files. */
  predicate BasesOf(segments: seq<Segment>, files: seq<SegmentFile>) {
    |segments| <= |files| && forall j :: 0 <= j < |segments| ==> segments[j].baseOffset == files[j].base
  }

  lemma BasesExtended(segments: seq<Segment>, segment: Segment, files: seq<SegmentFile>)
    requires BasesOf(segments, files) && |segments| < |files| && segment.baseOffset == files[|segments|].base
    ensures BasesOf(segments + [segment], files)
  {
  }

  lemma SortedBases(segments: seq<Segment>, files: seq<SegmentFile>)
    requires Listing(files) && |segments| == |files| && BasesOf(segments, files)
    ensures Sorted(Bases(segments))
    ensures segments != [] ==> segments[|segments| - 1].baseOffset == files[|files| - 1].base >= 0
  {
    hide Bases;
  }

  lemma ReplaceLast(prefix: seq<SegmentState>, x: SegmentState, y: SegmentState)
    ensures (prefix + [x])[|prefix| := y] == prefix + [y]
  {
  }

  lemma SortedSnoc(keys: seq<int>, last: int)
    requires Sorted(keys) && (keys != [] ==> keys[|keys| - 1] <= last)
    ensures Sorted(keys + [last])
  {
  }
}
