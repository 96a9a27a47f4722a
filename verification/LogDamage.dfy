/** What recovery makes of a log with a damaged batch somewhere inside. */
module LogDamage {
  import opened Basics
  import opened CrcBursts
  import opened RecordBatches
  import opened Segments
  import opened OffsetIndexes
  import opened LogLayout
  import opened LogStates
  import opened LogRecovery

  // ---- One file: whole batches with something unreadable behind them ----

  /** Recovery passes over the whole batches at the front of a file. */
  lemma {:induction false} RecoverPasses(opts: Options, base: i64, bs: seq<RecordBatch>, tail: bytes, active: bool,
                                         j: nat, at: Recovered)
    requires Chain(bs, base) && base >= 0 && EndOffset(bs, base) < TWO_63
    requires j <= |bs| && AfterBatches(opts, base, bs, j, at)
    ensures at.keep <= |FileOf(bs)| && base <= EndOffset(bs, base)
    ensures Recover(opts, base, FileOf(bs) + tail, active, at.keep, at.next, at.entries)
         == Recover(opts, base, FileOf(bs) + tail, active, |FileOf(bs)|, EndOffset(bs, base),
                    SparseIndex(bs, opts.Interval()))
    decreases |bs| - j
  {
    hide FileOf, Recover, BatchAt, Chain, SparseIndex, EndOffset, Position, AllMade;
    var file, whole := FileOf(bs) + tail, bs[..|bs|];
    ChainMade(bs, base);
    PositionsGrow(bs, j, |bs|);
    PositionLast(bs);
    EndsGrow(bs, base, |bs|);
    assert whole == bs;
    if j < |bs| {
      PositionStep(bs, j);
      BatchAtPosition(bs, tail, j, |file| - at.keep);
      IndexWholeBatch(opts, base, bs, j);
      EndAfterBatch(base, bs, j);
      var after := Recovered(Position(bs, j + 1), EndOffset(bs[..j + 1], base),
                             SparseIndex(bs[..j + 1], opts.Interval()));
      RecoverStep(opts, base, file, active, at, bs[j], after);
      RecoverPasses(opts, base, bs, tail, active, j + 1, after);
    }
  }

  /** Nothing can be read behind the whole batches, although it is not the torn end of an append. */
  predicate Unreadable(file: bytes, position: nat) {
    && position < |file| && BatchAt(file, position, |file| - position) == Err(Corruption)
    && !Torn(file, position)
  }

  lemma RecoverDamaged(opts: Options, seg: SegmentState, bs: seq<RecordBatch>, tail: bytes, active: bool)
    requires Chain(bs, seg.base) && seg.base >= 0 && EndOffset(bs, seg.base) < TWO_63
    requires Unreadable(FileOf(bs) + tail, |FileOf(bs)|)
    ensures Recover(opts, seg.base, FileOf(bs) + tail, active, 0, seg.base, []) ==
      if opts.strictRecovery then Err(Corruption)
      else Ok(Recovered(|FileOf(bs)|, EndOffset(bs, seg.base), SparseIndex(bs, opts.Interval())))
  {
    hide FileOf, Chain, EndOffset, SparseIndex, BatchAt, Torn;
    PositionZero(bs);
    StartOfRecovery(opts, seg.base, bs);
    RecoverPasses(opts, seg.base, bs, tail, active, 0, Recovered(0, seg.base, []));
  }

  /** The file of a segment in which other bytes took the place of the payload of batch i. */
  function DamagedFile(bs: seq<RecordBatch>, i: nat, damaged: bytes): bytes
    requires i < |bs|
  {
    var header := BatchBytes(bs[i])[..Min(BATCH_HEADER_BYTES, |BatchBytes(bs[i])|)];
    FileOf(bs[..i]) + (header + damaged + FileOf(bs[i + 1..]))
  }

  /** The bytes differ from the payload of the batch, but only within 32 consecutive bits. */
  ghost predicate BurstIn(b: RecordBatch, damaged: bytes, first: nat) {
    && |damaged| == |Payload(b.records)| && damaged != Payload(b.records)
    && IsBurst(Payload(b.records), damaged, first)
  }

  lemma DamagedUnreadable(bs: seq<RecordBatch>, i: nat, damaged: bytes, first: nat)
    requires AllMade(bs) && i < |bs| && BurstIn(bs[i], damaged, first)
    ensures Unreadable(DamagedFile(bs, i, damaged), |FileOf(bs[..i])|)
  {
    hide FileOf, BatchIn, DeclaredBytes, BatchBytes, EncodedBatch, MadeBatch, IsBurst, Payload, FileRead, BatchAt;
    var b := bs[i];
    assert Made(b);
    MadeBatchBytes(b);
    PayloadLength(b);
    DamagedBatchRejected(b.baseOffset, b.records, damaged, first, []);
    var pre, header, rest := FileOf(bs[..i]), BatchBytes(b)[..BATCH_HEADER_BYTES], FileOf(bs[i + 1..]);
    var tail := header + damaged + rest;
    DeclaredBytesOf(b, []);
    assert (BatchBytes(b) + [])[..BATCH_HEADER_BYTES] == header;
    ReadInside(pre, tail, BATCH_HEADER_BYTES);
    ReadInside(pre, tail, b.batchBytes);
    assert tail[..BATCH_HEADER_BYTES] == header && tail[..b.batchBytes] == header + damaged;
    assert header + damaged + [] == header + damaged;
    BatchAtDeclared(pre + tail, |pre|, |tail|, b.batchBytes);
  }

  lemma PayloadLength(b: RecordBatch)
    requires Made(b)
    ensures |Payload(b.records)| + BATCH_HEADER_BYTES == b.batchBytes
  {
    hide PayloadSize, Payload, BatchBytes, EncodedBatch, BatchIn, StampedAll;
    MadeBatchBytes(b);
  }

  // ---- The whole log ----

  /** Loading the segments before the s-th, which are whole, and then whatever the rest gives. */
  lemma {:induction false} LoadHead(opts: Options, st: LogState, chunks: seq<seq<RecordBatch>>,
                                    files: seq<SegmentFile>, s: nat, k: nat)
    requires Represents(opts, st, chunks) && k <= s < |chunks| == |files|
    requires forall m :: 0 <= m < s ==> files[m] == SegmentFile(st.segments[m].base, st.segments[m].file)
    ensures var (r, rest) := LoadFrom(opts, files, s, st.segments[..s], st.segments[s].base);
      LoadFrom(opts, files, k, st.segments[..k], st.segments[k].base) == (r, files[k..s] + rest)
    decreases s - k
  {
    hide Represents, Laid, Holds, EndOffset, LoadFrom, FileOf, SparseIndex;
    var (r, rest) := LoadFrom(opts, files, s, st.segments[..s], st.segments[s].base);
    if k < s {
      SealedSegment(opts, st, chunks, k);
      EndInRange(opts, st, chunks, k);
      LoadSealed(opts, files, k, st.segments[..k], chunks[k]);
      assert st.segments[..k] + [st.segments[k]] == st.segments[..k + 1];
      LoadHead(opts, st, chunks, files, s, k + 1);
      assert [files[k]] + (files[k + 1..s] + rest) == files[k..s] + rest;
    } else {
      assert files[s..s] + rest == rest;
    }
  }

  lemma LoadWhole(opts: Options, st: LogState, chunks: seq<seq<RecordBatch>>, files: seq<SegmentFile>, k: nat,
                  before: seq<SegmentState>, next: i64)
    requires Represents(opts, st, chunks) && k < |chunks| == |files| && next <= st.segments[k].base
    requires files[k] == SegmentFile(st.segments[k].base, st.segments[k].file)
    ensures var end := EndOffset(chunks[k], st.segments[k].base);
      st.segments[k].base <= end < TWO_63 &&
      var (r, rest) := LoadFrom(opts, files, k + 1, before + [st.segments[k]], end);
      LoadFrom(opts, files, k, before, next) == (r, [files[k]] + rest)
  {
    hide Represents, Laid, Holds, EndOffset, LoadFrom, FileOf, SparseIndex, Recover, WholeBatches;
    var seg, bs := st.segments[k], chunks[k];
    SegmentHolds(opts, st, chunks, k);
    EndInRange(opts, st, chunks, k);
    HoldsSegmentOf(opts, seg, bs);
    RecoverSegmentFile(opts, seg, bs, |seg.file|, k == |files| - 1);
    WholeFile(bs);
    assert seg.file[..|seg.file|] == seg.file;
    LoadStep(opts, files, k, before, next);
  }

  lemma SegmentHolds(opts: Options, st: LogState, chunks: seq<seq<RecordBatch>>, k: nat)
    requires Represents(opts, st, chunks) && k < |chunks|
    ensures Holds(opts, st.segments[k], chunks[k])
    ensures k < |chunks| - 1 ==> st.segments[k + 1].base == EndOffset(chunks[k], st.segments[k].base)
    ensures k == |chunks| - 1 ==> st.next == EndOffset(chunks[k], st.segments[k].base)
  {
    hide Laid, Holds, EndOffset;
    LaidAt(opts, st.segments, chunks, k);
  }

  /** Loading whole segments from the k-th on, behind whatever was loaded before. */
  lemma {:induction false} LoadTail(opts: Options, st: LogState, chunks: seq<seq<RecordBatch>>,
                                    files: seq<SegmentFile>, k: nat, before: seq<SegmentState>, next: i64)
    requires Represents(opts, st, chunks) && k < |chunks| == |files| && next <= st.segments[k].base
    requires forall m :: k <= m < |files| ==> files[m] == SegmentFile(st.segments[m].base, st.segments[m].file)
    ensures LoadFrom(opts, files, k, before, next)
         == (Ok(LogState(before + st.segments[k..], st.next, false)), files[k..])
    decreases |files| - k
  {
    hide Represents, Laid, Holds, EndOffset, LoadFrom;
    LoadWhole(opts, st, chunks, files, k, before, next);
    SegmentHolds(opts, st, chunks, k);
    var longer := before + [st.segments[k]];
    if k < |files| - 1 {
      LoadTail(opts, st, chunks, files, k + 1, longer, EndOffset(chunks[k], st.segments[k].base));
      assert longer + st.segments[k + 1..] == before + st.segments[k..];
      assert [files[k]] + files[k + 1..] == files[k..];
    } else {
      LoadEnd(opts, files, longer, st.next);
      assert longer == before + st.segments[k..] && files[k..] == [files[k]] + [];
    }
  }

  /** The files of the log with batch i of segment s damaged. */
  function DamagedFiles(st: LogState, chunks: seq<seq<RecordBatch>>, s: nat, i: nat, damaged: bytes): seq<SegmentFile>
    requires s < |chunks| == |st.segments| && i < |chunks[s]|
  {
    FilesOf(st.segments)[s := SegmentFile(st.segments[s].base, DamagedFile(chunks[s], i, damaged))]
  }

  lemma DamagedFilesAt(st: LogState, chunks: seq<seq<RecordBatch>>, s: nat, i: nat, damaged: bytes, m: nat)
    requires s < |chunks| == |st.segments| && i < |chunks[s]| && m < |chunks|
    ensures DamagedFiles(st, chunks, s, i, damaged)[m] == SegmentFile(st.segments[m].base,
      if m == s then DamagedFile(chunks[s], i, damaged) else st.segments[m].file)
  {
    hide DamagedFile;
    FilesOfAt(st.segments, m);
  }

  /** The log without batch i of segment s and the batches behind it in that segment. */
  function Shortened(opts: Options, st: LogState, chunks: seq<seq<RecordBatch>>, s: nat, i: nat): LogState
    requires s < |chunks| == |st.segments| && i < |chunks[s]|
  {
    LogState(st.segments[s := SegmentOf(opts, st.segments[s].base, chunks[s][..i])],
             if s == |chunks| - 1 then chunks[s][i].baseOffset else st.next, false)
  }

  lemma RecoverDamagedSegment(opts: Options, st: LogState, chunks: seq<seq<RecordBatch>>, s: nat, i: nat,
                              damaged: bytes, first: nat, active: bool)
    requires Represents(opts, st, chunks) && s < |chunks| && i < |chunks[s]| && BurstIn(chunks[s][i], damaged, first)
    ensures var base, bs := st.segments[s].base, chunks[s][..i];
      && 0 <= base <= EndOffset(bs, base) == chunks[s][i].baseOffset <= EndOffset(chunks[s], base)
      && Recover(opts, base, DamagedFile(chunks[s], i, damaged), active, 0, base, []) ==
           if opts.strictRecovery then Err(Corruption)
           else Ok(Recovered(|FileOf(bs)|, EndOffset(bs, base), SparseIndex(bs, opts.Interval())))
  {
    hide Laid, Holds, EndOffset, FileOf, SparseIndex, Recover, BurstIn, Unreadable, Chain, BatchBytes, AllMade;
    var seg, bs := st.segments[s], chunks[s][..i];
    LaidAt(opts, st.segments, chunks, s);
    HoldsSegmentOf(opts, seg, chunks[s]);
    EndInRange(opts, st, chunks, s);
    ChainMade(chunks[s], seg.base);
    ChainTake(chunks[s], seg.base, i);
    EndsGrow(chunks[s], seg.base, i);
    DamagedUnreadable(chunks[s], i, damaged, first);
    var b := chunks[s][i];
    var tail := BatchBytes(b)[..Min(BATCH_HEADER_BYTES, |BatchBytes(b)|)] + damaged + FileOf(chunks[s][i + 1..]);
    RecoverDamaged(opts, seg, bs, tail, active);
  }

  lemma FrontOfDamaged(bs: seq<RecordBatch>, i: nat, damaged: bytes)
    requires i < |bs|
    ensures |FileOf(bs[..i])| <= |DamagedFile(bs, i, damaged)|
    ensures DamagedFile(bs, i, damaged)[..|FileOf(bs[..i])|] == FileOf(bs[..i])
  {
    hide FileOf, BatchBytes;
  }

  /** Loading from the damaged file on. */
  lemma LoadDamaged(opts: Options, st: LogState, chunks: seq<seq<RecordBatch>>, files: seq<SegmentFile>, s: nat, i: nat,
                    damaged: bytes, first: nat)
    requires Represents(opts, st, chunks) && s < |chunks| == |files| && i < |chunks[s]|
    requires BurstIn(chunks[s][i], damaged, first)
    requires forall m :: s < m < |files| ==> files[m] == SegmentFile(st.segments[m].base, st.segments[m].file)
    requires files[s] == SegmentFile(st.segments[s].base, DamagedFile(chunks[s], i, damaged))
    ensures LoadFrom(opts, files, s, st.segments[..s], st.segments[s].base) ==
      if opts.strictRecovery then (Err(Corruption), files[s..])
      else (Ok(Shortened(opts, st, chunks, s, i)),
            [SegmentFile(st.segments[s].base, FileOf(chunks[s][..i]))] + files[s + 1..])
  {
    hide Represents, Laid, Holds, EndOffset, FileOf, SparseIndex, Recover, BurstIn, DamagedFile, Chain;
    var base, bs, n := st.segments[s].base, chunks[s][..i], |files| - 1;
    RecoverDamagedSegment(opts, st, chunks, s, i, damaged, first, s == n);
    SegmentHolds(opts, st, chunks, s);
    if !opts.strictRecovery {
      FrontOfDamaged(chunks[s], i, damaged);
      LoadStep(opts, files, s, st.segments[..s], base);
      hide LoadFrom;
      var seg := SegmentOf(opts, base, bs);
      var longer := st.segments[..s] + [seg];
      if s < n {
        LoadTail(opts, st, chunks, files, s + 1, longer, EndOffset(bs, base));
        assert longer + st.segments[s + 1..] == st.segments[s := seg];
      } else {
        LoadEnd(opts, files, longer, EndOffset(bs, base));
        assert longer == st.segments[s := seg] && files[s + 1..] == [];
      }
    }
  }

  /** Batch i of segment s damaged, anywhere in the log: opening it without strict recovery succeeds, keeps
      of that file exactly the batches before the damaged one, and every other file whole; opening it
      with strict recovery reports corruption and leaves every file as it is. */
  lemma DamagedLogOpens(opts: Options, st: LogState, chunks: seq<seq<RecordBatch>>, s: nat, i: nat,
                        damaged: bytes, first: nat)
    requires Represents(opts, st, chunks) && opts.segmentBytes >= BATCH_HEADER_BYTES
    requires s < |chunks| && i < |chunks[s]| && BurstIn(chunks[s][i], damaged, first)
    ensures var files := DamagedFiles(st, chunks, s, i, damaged);
      Open(opts, files) ==
        if opts.strictRecovery then (Err(Corruption), files)
        else (Ok(Shortened(opts, st, chunks, s, i)),
              FilesOf(st.segments)[s := SegmentFile(st.segments[s].base, FileOf(chunks[s][..i]))])
  {
    hide Represents, Laid, Holds, EndOffset, FileOf, SparseIndex, LoadFrom, BurstIn, DamagedFile, Shortened, FilesOf;
    var files, base := DamagedFiles(st, chunks, s, i, damaged), st.segments[s].base;
    forall m | 0 <= m < |files| ensures files[m] == SegmentFile(st.segments[m].base,
      if m == s then DamagedFile(chunks[s], i, damaged) else st.segments[m].file) {
      DamagedFilesAt(st, chunks, s, i, damaged, m);
    }
    FirstBase(opts, st, chunks);
    LoadHead(opts, st, chunks, files, s, 0);
    LoadDamaged(opts, st, chunks, files, s, i, damaged, first);
    assert st.segments[..0] == [];
    Spliced(FilesOf(st.segments), s, SegmentFile(base, DamagedFile(chunks[s], i, damaged)),
            SegmentFile(base, FileOf(chunks[s][..i])));
  }

  lemma Spliced<T>(all: seq<T>, s: nat, x: T, y: T)
    requires s < |all|
    ensures all[s := x][0..s] + all[s := x][s..] == all[s := x]
    ensures all[s := x][0..s] + ([y] + all[s := x][s + 1..]) == all[s := y]
  {
  }

  // ---- Arbitrary bytes ----

  lemma {:induction false} RecoverNeverCorrupt(opts: Options, base: i64, file: bytes, active: bool, position: nat,
                                               next: i64, entries: seq<IndexEntry>)
    requires position <= |file| && !opts.strictRecovery
    ensures var r := Recover(opts, base, file, active, position, next, entries);
      r.Err? ==> r.error == InvalidArgument
    decreases |file| - position
  {
    hide BatchAt, Torn, Plus64, ToI64;
    if position < |file| && BatchAt(file, position, |file| - position).Ok? {
      var b := BatchAt(file, position, |file| - position).value;
      var indexed := Appended(base, opts.Interval(), entries, b.baseOffset, position);
      if indexed.Ok? {
        RecoverNeverCorrupt(opts, base, file, active, position + b.batchBytes,
                            Max(next, Plus64(b.baseOffset, ToI64(b.recordCount))), indexed.value);
      }
    }
  }

  lemma {:induction false} LoadNeverCorrupt(opts: Options, files: seq<SegmentFile>, i: nat,
                                            segments: seq<SegmentState>, next: i64)
    requires i <= |files| && !opts.strictRecovery
    ensures var st := LoadFrom(opts, files, i, segments, next).0;
      st.Err? ==> st.error == InvalidArgument
    decreases |files| - i
  {
    hide Recover;
    if i < |files| {
      var f := files[i];
      var r := Recover(opts, f.base, f.content, i == |files| - 1, 0, f.base, []);
      RecoverNeverCorrupt(opts, f.base, f.content, i == |files| - 1, 0, f.base, []);
      if r.Ok? {
        LoadNeverCorrupt(opts, files, i + 1,
          segments + [SegmentState(f.base, f.content[..r.value.keep], r.value.entries)], Max(next, r.value.next));
      }
    }
  }

  /** Without strict recovery no bytes whatever make an Open report corruption: it can only fail over
      batches whose offsets are out of order. */
  lemma LenientOpenNeverCorrupt(opts: Options, files: seq<SegmentFile>)
    requires !opts.strictRecovery
    ensures Open(opts, files).0.Err? ==> Open(opts, files).0.error == InvalidArgument
  {
    hide LoadFrom;
    LoadNeverCorrupt(opts, files, 0, [], 0);
  }
}
