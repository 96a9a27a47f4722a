/** Reopening a log: re-parse every segment file, cut off what cannot be read, rebuild the index. */
module LogRecovery {
  import opened Basics
  import opened RecordBatches
  import opened Segments
  import opened OffsetIndexes
  import opened LogLayout
  import opened LogStates

  /** A log file found on disk: the base offset its name spells, and its bytes. */
  datatype SegmentFile = SegmentFile(base: i64, content: bytes)

  datatype Recovered = Recovered(keep: nat, next: i64, entries: seq<IndexEntry>)

  /** A 64-bit signed sum as the hardware computes it. */
  function Plus64(a: i64, b: i64): (r: i64)
    ensures -TWO_63 <= a + b < TWO_63 ==> r == a + b
  {
    if a + b >= TWO_63 then a + b - TWO_64 else if a + b < -TWO_63 then a + b + TWO_64 else a + b
  }

  /** A torn append: the tail is shorter than a header, or its header declares more bytes than remain. */
  predicate Torn(file: bytes, position: nat)
    requires position <= |file|
  {
    var remaining := |file| - position;
    remaining < BATCH_HEADER_BYTES ||
    (var declared := DeclaredBytes(FileRead(file, position, BATCH_HEADER_BYTES));
     declared.Ok? && declared.value > remaining)
  }

  /** Whether strict recovery gives up, rather than truncates, at an unreadable batch. */
  predicate GivesUp(opts: Options, file: bytes, position: nat, active: bool)
    requires position <= |file|
  {
    opts.strictRecovery && !(active && Torn(file, position))
  }

  /** The loop of RecoverSegment. */
  function Recover(opts: Options, base: i64, file: bytes, active: bool,
                   position: nat, next: i64, entries: seq<IndexEntry>): (r: Result<Recovered>)
    requires position <= |file|
    ensures r.Ok? ==> position <= r.value.keep <= |file| && next <= r.value.next
    decreases |file| - position
  {
    if position == |file| then Ok(Recovered(position, next, entries))
    else
      var batch := BatchAt(file, position, |file| - position);
      if batch.Err? then
        if GivesUp(opts, file, position, active) then Err(batch.error)
        else Ok(Recovered(position, next, entries))
      else
        var b := batch.value;
        var indexed :- Appended(base, opts.Interval(), entries, b.baseOffset, position);
        Recover(opts, base, file, active, position + b.batchBytes,
                Max(next, Plus64(b.baseOffset, ToI64(b.recordCount))), indexed)
  }

  /** LoadOrCreateSegments over the sorted files from index i on: the log if every segment recovers,
      and what the files hold afterwards either way. */
  function LoadFrom(opts: Options, files: seq<SegmentFile>, i: nat, segments: seq<SegmentState>, next: i64)
    : (Result<LogState>, seq<SegmentFile>)
    requires i <= |files|
    decreases |files| - i
  {
    if i == |files| then (Ok(LogState(segments, next, false)), [])
    else
      var f := files[i];
      var r := Recover(opts, f.base, f.content, i == |files| - 1, 0, f.base, []);
      if r.Err? then (Err(r.error), files[i..])
      else
        var kept := f.content[..r.value.keep];
        var (st, rest) := LoadFrom(opts, files, i + 1,
          segments + [SegmentState(f.base, kept, r.value.entries)], Max(next, r.value.next));
        (st, [SegmentFile(f.base, kept)] + rest)
  }

  /** CommitLog::Open over the files of a directory. */
  function Open(opts: Options, files: seq<SegmentFile>): (Result<LogState>, seq<SegmentFile>) {
    if opts.segmentBytes < BATCH_HEADER_BYTES then (Err(InvalidArgument), files)
    else if files == [] then (Ok(LogState(Rolled([], 0), 0, false)), [SegmentFile(0, [])])
    else LoadFrom(opts, files, 0, [], 0)
  }

  /** What the files of a log hold. */
  function FilesOf(segments: seq<SegmentState>): (files: seq<SegmentFile>)
    ensures |files| == |segments|
  {
    if segments == [] then []
    else
      var n := |segments| - 1;
      FilesOf(segments[..n]) + [SegmentFile(segments[n].base, segments[n].file)]
  }

  lemma {:induction false} FilesOfAt(segments: seq<SegmentState>, i: nat)
    requires i < |segments|
    ensures FilesOf(segments)[i] == SegmentFile(segments[i].base, segments[i].file)
  {
    if i < |segments| - 1 { FilesOfAt(segments[..|segments| - 1], i); }
  }

  lemma {:induction false} FilesOfTake(segments: seq<SegmentState>, n: nat)
    requires n <= |segments|
    ensures FilesOf(segments)[..n] == FilesOf(segments[..n])
  {
    if n == |segments| {
      assert segments[..n] == segments;
    } else {
      FilesOfTake(segments[..|segments| - 1], n);
      assert segments[..|segments| - 1][..n] == segments[..n];
    }
  }

  // ---- Reopening twice is reopening once, whatever the bytes ----

  lemma BatchAtPrefix(file: bytes, position: nat, maxBytes: nat, keep: nat)
    requires position <= keep <= |file|
    ensures var b := BatchAt(file, position, maxBytes);
      b.Ok? && position + b.value.batchBytes <= keep ==> BatchAt(file[..keep], position, keep - position) == b
  {
    hide BatchIn, DeclaredBytes;
    var b := BatchAt(file, position, maxBytes);
    if b.Ok? && position + b.value.batchBytes <= keep {
      var shorter := file[..keep];
      var size := b.value.batchBytes;
      assert FileRead(file, position, BATCH_HEADER_BYTES) == FileRead(shorter, position, BATCH_HEADER_BYTES);
      SliceOfPrefix(file, keep, position, position + size);
      DeclaredAtPosition(file, position, maxBytes);
    }
  }

  lemma DeclaredAtPosition(file: bytes, position: nat, maxBytes: nat)
    ensures var b := BatchAt(file, position, maxBytes);
      b.Ok? ==> DeclaredBytes(FileRead(file, position, BATCH_HEADER_BYTES)) == Ok(b.value.batchBytes)
  {
    hide BatchIn, DeclaredBytes;
    var b := BatchAt(file, position, maxBytes);
    if b.Ok? {
      var size := DeclaredBytes(FileRead(file, position, BATCH_HEADER_BYTES)).value;
      var encoded := file[position..position + size];
      DeclaredByHeader(encoded);
      assert encoded[..BATCH_HEADER_BYTES] == FileRead(file, position, BATCH_HEADER_BYTES);
    }
  }

  /** What recovery keeps, recovery keeps again, in either mode and in either role. */
  lemma {:induction false} RecoverStable(opts: Options, opts': Options, base: i64, file: bytes,
                                         active: bool, active': bool,
                                         position: nat, next: i64, entries: seq<IndexEntry>)
    requires position <= |file| && opts.Interval() == opts'.Interval()
    ensures var r := Recover(opts, base, file, active, position, next, entries);
      r.Ok? ==> Recover(opts', base, file[..r.value.keep], active', position, next, entries) == r
    decreases |file| - position
  {
    hide BatchAt, Appended, GivesUp, Plus64, ToI64;
    var r := Recover(opts, base, file, active, position, next, entries);
    if r.Ok? && position < |file| {
      var b := BatchAt(file, position, |file| - position);
      if b.Ok? {
        var indexed := Appended(base, opts.Interval(), entries, b.value.baseOffset, position).value;
        RecoverStable(opts, opts', base, file, active, active', position + b.value.batchBytes,
          Max(next, Plus64(b.value.baseOffset, ToI64(b.value.recordCount))), indexed);
        BatchAtPrefix(file, position, |file| - position, r.value.keep);
      }
    }
  }

  lemma {:induction false} LoadStable(opts: Options, opts': Options, files: seq<SegmentFile>, files': seq<SegmentFile>,
                                      i: nat, segments: seq<SegmentState>, next: i64)
    requires i <= |files| == |files'| && opts.Interval() == opts'.Interval()
    requires var (st, rest) := LoadFrom(opts, files, i, segments, next);
      st.Ok? && files'[i..] == rest
    ensures LoadFrom(opts', files', i, segments, next) == LoadFrom(opts, files, i, segments, next)
    decreases |files| - i
  {
    hide Recover;
    if i < |files| {
      var f := files[i];
      var r := Recover(opts, f.base, f.content, i == |files| - 1, 0, f.base, []).value;
      RecoverStable(opts, opts', f.base, f.content, i == |files| - 1, i == |files| - 1, 0, f.base, []);
      var kept := f.content[..r.keep];
      var longer := segments + [SegmentState(f.base, kept, r.entries)];
      var (st, rest) := LoadFrom(opts, files, i + 1, longer, Max(next, r.next));
      var all := LoadFrom(opts, files, i, segments, next).1;
      assert all == [SegmentFile(f.base, kept)] + rest;
      assert files'[i] == all[0] && files'[i + 1..] == all[1..] == rest;
      LoadStable(opts, opts', files, files', i + 1, longer, Max(next, r.next));
      assert kept[..r.keep] == kept;
    }
  }

  lemma {:induction false} LoadKeepsFiles(opts: Options, files: seq<SegmentFile>, i: nat,
                                          segments: seq<SegmentState>, next: i64)
    requires i <= |files|
    ensures |LoadFrom(opts, files, i, segments, next).1| == |files| - i
    decreases |files| - i
  {
    hide Recover;
    if i < |files| {
      var f := files[i];
      var r := Recover(opts, f.base, f.content, i == |files| - 1, 0, f.base, []);
      if r.Ok? {
        LoadKeepsFiles(opts, files, i + 1,
          segments + [SegmentState(f.base, f.content[..r.value.keep], r.value.entries)], Max(next, r.value.next));
      }
    }
  }

  /** A second Open finds the same log and changes no file, for any files at all and even when the
      recovery mode is switched in between. */
  lemma OpenTwice(opts: Options, opts': Options, files: seq<SegmentFile>)
    requires opts'.segmentBytes == opts.segmentBytes && opts'.Interval() == opts.Interval()
    ensures var (st, files') := Open(opts, files);
      st.Ok? ==> Open(opts', files') == (st, files')
  {
    hide LoadFrom;
    var (st, files') := Open(opts, files);
    if st.Ok? && files != [] {
      LoadKeepsFiles(opts, files, 0, [], 0);
      assert files'[0..] == files';
      LoadStable(opts, opts', files, files', 0, [], 0);
    } else if st.Ok? {
      FreshReopens(opts');
    }
  }

  lemma FreshReopens(opts: Options)
    ensures LoadFrom(opts, [SegmentFile(0, [])], 0, [], 0) ==
      (Ok(LogState(Rolled([], 0), 0, false)), [SegmentFile(0, [])])
  {
    var files := [SegmentFile(0, [])];
    var segments := [SegmentState(0, [], [])];
    assert [] + segments == segments == Rolled([], 0);
    assert Recover(opts, 0, [], true, 0, 0, []) == Ok(Recovered(0, 0, []));
    assert files[0].content[..0] == [];
    assert LoadFrom(opts, files, 1, segments, 0) == (Ok(LogState(segments, 0, false)), []);
    assert [SegmentFile(0, [])] + [] == files;
  }

  // ---- Strict recovery loses no complete batch, whatever the bytes ----

  lemma {:induction false} StrictRecover(opts: Options, base: i64, file: bytes, active: bool,
                                         position: nat, next: i64, entries: seq<IndexEntry>)
    requires position <= |file| && opts.strictRecovery
    ensures var r := Recover(opts, base, file, active, position, next, entries);
      r.Ok? ==> r.value.keep == |file| || (active && Torn(file, r.value.keep))
    decreases |file| - position
  {
    hide BatchAt, Appended, Torn, Plus64, ToI64;
    if position < |file| {
      var b := BatchAt(file, position, |file| - position);
      if b.Ok? {
        var indexed := Appended(base, opts.Interval(), entries, b.value.baseOffset, position);
        if indexed.Ok? {
          StrictRecover(opts, base, file, active, position + b.value.batchBytes,
            Max(next, Plus64(b.value.baseOffset, ToI64(b.value.recordCount))), indexed.value);
        }
      }
    }
  }

  /** The files a strict Open leaves behind: sealed segments untouched, the last one cut, if at all,
      at a torn append. */
  ghost predicate OnlyTornTailCut(files: seq<SegmentFile>, files': seq<SegmentFile>) {
    && |files| == |files'|
    && (forall i :: 0 <= i < |files| - 1 ==> files'[i] == files[i])
    && (files != [] ==>
          var f, f' := files[|files| - 1], files'[|files| - 1];
          f'.base == f.base && (f' == f || TailCut(f.content, f'.content)))
  }

  ghost predicate TailCut(file: bytes, file': bytes) {
    |file'| < |file| && file' == file[..|file'|] && Torn(file, |file'|)
  }

  lemma {:induction false} StrictLoad(opts: Options, files: seq<SegmentFile>, i: nat,
                                      segments: seq<SegmentState>, next: i64)
    requires i <= |files| && opts.strictRecovery
    ensures var (st, rest) := LoadFrom(opts, files, i, segments, next);
      if st.Err? then rest == files[i..] else OnlyTornTailCut(files[i..], rest)
    decreases |files| - i
  {
    hide Recover, Torn;
    if i < |files| {
      var f, active := files[i], i == |files| - 1;
      var r := Recover(opts, f.base, f.content, active, 0, f.base, []);
      StrictRecover(opts, f.base, f.content, active, 0, f.base, []);
      if r.Ok? {
        var kept := f.content[..r.value.keep];
        var longer := segments + [SegmentState(f.base, kept, r.value.entries)];
        StrictLoad(opts, files, i + 1, longer, Max(next, r.value.next));
        var (st, rest) := LoadFrom(opts, files, i + 1, longer, Max(next, r.value.next));
        assert files[i..] == [f] + files[i + 1..];
        if !active { assert kept == f.content; }
        if st.Ok? {
          CutCons(f, files[i + 1..], SegmentFile(f.base, kept), rest);
        }
      }
    }
  }

  lemma CutCons(f: SegmentFile, tail: seq<SegmentFile>, f': SegmentFile, tail': seq<SegmentFile>)
    requires OnlyTornTailCut(tail, tail') && f'.base == f.base
    requires if tail == [] then f' == f || TailCut(f.content, f'.content) else f' == f
    ensures OnlyTornTailCut([f] + tail, [f'] + tail')
  {
    hide TailCut;
  }

  /** A strict Open either cuts only a torn tail off the last file, or fails and shortens no file. */
  lemma StrictOpenLosesNoBatch(opts: Options, files: seq<SegmentFile>)
    requires opts.strictRecovery
    ensures var (st, files') := Open(opts, files);
      if st.Err? then files' == files else files != [] ==> OnlyTornTailCut(files, files')
  {
    hide LoadFrom, OnlyTornTailCut;
    StrictLoad(opts, files, 0, [], 0);
    assert files[0..] == files;
  }

  // ---- A crash that cuts the last file keeps exactly the whole batches before the cut ----

  /** How many whole batches fit in the first cut bytes. */
  function WholeBatches(bs: seq<RecordBatch>, cut: nat): (k: nat)
    ensures k <= |bs|
  {
    if bs == [] || |FileOf(bs)| <= cut then |bs| else WholeBatches(bs[..|bs| - 1], cut)
  }

  lemma {:induction false} WholeBatchesMaximal(bs: seq<RecordBatch>, cut: nat)
    ensures var k := WholeBatches(bs, cut);
      Position(bs, k) <= cut && (k < |bs| ==> cut < Position(bs, k + 1))
  {
    hide FileOf;
    var n := |bs|;
    PositionLast(bs);
    if bs == [] {
      PositionZero(bs);
    } else if |FileOf(bs)| > cut {
      var k := WholeBatches(bs[..n - 1], cut);
      WholeBatchesMaximal(bs[..n - 1], cut);
      PositionOfTake(bs, n - 1, k);
      if k < n - 1 { PositionOfTake(bs, n - 1, k + 1); }
    }
  }

  lemma CutInsideBatch(bs: seq<RecordBatch>, k: nat, cut: nat)
    requires AllMade(bs) && k < |bs|
    requires Position(bs, k) < cut < Position(bs, k + 1)
    ensures cut <= |FileOf(bs)|
    ensures var file := FileOf(bs)[..cut];
      BatchAt(file, Position(bs, k), cut - Position(bs, k)).Err? && Torn(file, Position(bs, k))
  {
    hide Made, FileOf, BatchBytes, BatchIn, DeclaredBytes;
    var b, p := bs[k], Position(bs, k);
    assert Made(b);
    PositionStep(bs, k);
    FileOfSplit(bs, k);
    var whole := FileOf(bs);
    var file, rest := whole[..cut], FileOf(bs[k + 1..]);
    assert whole == FileOf(bs[..k]) + (BatchBytes(b) + rest);
    if cut - p >= BATCH_HEADER_BYTES {
      DeclaredBytesOf(b, rest);
      assert FileRead(file, p, BATCH_HEADER_BYTES) == (BatchBytes(b) + rest)[..BATCH_HEADER_BYTES];
    }
  }

  /** The loop state of recovery after j whole batches. */
  ghost predicate AfterBatches(opts: Options, base: i64, bs: seq<RecordBatch>, j: nat, r: Recovered)
    requires j <= |bs|
  {
    && r.keep == Position(bs, j)
    && r.next == EndOffset(bs[..j], base)
    && r.entries == SparseIndex(bs[..j], opts.Interval())
  }

  /** Recovery of a cut file, from the start of any whole batch: it stops after the last one. */
  lemma {:induction false} RecoverChain(opts: Options, base: i64, bs: seq<RecordBatch>, cut: nat, active: bool,
                                        j: nat, at: Recovered)
    requires Chain(bs, base) && base >= 0 && EndOffset(bs, base) < TWO_63
    requires cut <= |FileOf(bs)| && j <= WholeBatches(bs, cut) && AfterBatches(opts, base, bs, j, at)
    requires active || cut == |FileOf(bs)|
    ensures at.keep <= cut
    ensures var r := Recover(opts, base, FileOf(bs)[..cut], active, at.keep, at.next, at.entries);
      r.Ok? && AfterBatches(opts, base, bs, WholeBatches(bs, cut), r.value)
    decreases |bs| - j
  {
    hide FileOf, Recover, WholeBatches, Chain, AfterBatches, EndOffset, AllMade;
    var k := WholeBatches(bs, cut);
    ChainMade(bs, base);
    WholeBatchesMaximal(bs, cut);
    StateKeep(opts, base, bs, j, at);
    PositionsGrow(bs, j, k);
    if j == k {
      RecoverStops(opts, base, bs, cut, active, at);
    } else {
      var after := RecoverOne(opts, base, bs, cut, active, j, at);
      RecoverChain(opts, base, bs, cut, active, j + 1, after);
    }
  }

  lemma StateKeep(opts: Options, base: i64, bs: seq<RecordBatch>, j: nat, at: Recovered)
    requires j <= |bs| && AfterBatches(opts, base, bs, j, at)
    ensures at.keep == Position(bs, j)
  {
  }

  lemma RecoverOne(opts: Options, base: i64, bs: seq<RecordBatch>, cut: nat, active: bool, j: nat, at: Recovered)
    returns (after: Recovered)
    requires Chain(bs, base) && base >= 0 && EndOffset(bs, base) < TWO_63
    requires cut <= |FileOf(bs)| && j < WholeBatches(bs, cut) && AfterBatches(opts, base, bs, j, at)
    ensures AfterBatches(opts, base, bs, j + 1, after) && at.keep < after.keep <= cut
    ensures Recover(opts, base, FileOf(bs)[..cut], active, at.keep, at.next, at.entries)
         == Recover(opts, base, FileOf(bs)[..cut], active, after.keep, after.next, after.entries)
  {
    hide FileOf, Recover, BatchAt, WholeBatches, Chain, SparseIndex, Appended, EndOffset, Position, Plus64, ToI64,
      AllMade;
    var k := WholeBatches(bs, cut);
    ChainMade(bs, base);
    WholeBatchesMaximal(bs, cut);
    ReadWholeBatch(bs, cut, j, k);
    IndexWholeBatch(opts, base, bs, j);
    EndAfterBatch(base, bs, j);
    after := Recovered(Position(bs, j + 1), EndOffset(bs[..j + 1], base), SparseIndex(bs[..j + 1], opts.Interval()));
    RecoverStep(opts, base, FileOf(bs)[..cut], active, at, bs[j], after);
  }

  lemma RecoverStep(opts: Options, base: i64, file: bytes, active: bool, at: Recovered, b: RecordBatch,
                    after: Recovered)
    requires at.keep < |file| && BatchAt(file, at.keep, |file| - at.keep) == Ok(b)
    requires Appended(base, opts.Interval(), at.entries, b.baseOffset, at.keep) == Ok(after.entries)
    requires after.keep == at.keep + b.batchBytes <= |file|
    requires after.next == Max(at.next, Plus64(b.baseOffset, ToI64(b.recordCount)))
    ensures Recover(opts, base, file, active, at.keep, at.next, at.entries)
         == Recover(opts, base, file, active, after.keep, after.next, after.entries)
  {
    hide BatchAt, Appended, GivesUp, Plus64, ToI64;
  }

  lemma RecoverStops(opts: Options, base: i64, bs: seq<RecordBatch>, cut: nat, active: bool, at: Recovered)
    requires AllMade(bs) && cut <= |FileOf(bs)| && at.keep == Position(bs, WholeBatches(bs, cut)) <= cut
    requires active || cut == |FileOf(bs)|
    ensures Recover(opts, base, FileOf(bs)[..cut], active, at.keep, at.next, at.entries) == Ok(at)
  {
    hide FileOf, BatchAt, Torn, WholeBatches, Appended, Position;
    var k := WholeBatches(bs, cut);
    WholeBatchesMaximal(bs, cut);
    if at.keep < cut {
      PositionLast(bs);
      PositionsGrow(bs, k + 1, |bs|);
      CutInsideBatch(bs, k, cut);
    }
  }

  lemma EndsGrow(bs: seq<RecordBatch>, base: int, j: nat)
    requires Chain(bs, base) && j <= |bs|
    ensures base <= EndOffset(bs[..j], base) <= EndOffset(bs, base)
  {
    hide Flat, Made, EndOffset;
    ChainTake(bs, base, j);
    ChainFlat(bs, base);
    ChainFlat(bs[..j], base);
    assert bs == bs[..j] + bs[j..];
    FlatConcat(bs[..j], bs[j..]);
  }

  // One iteration of the recovery loop over a whole batch: it reads, it is indexed, the end moves on.

  lemma ReadWholeBatch(bs: seq<RecordBatch>, cut: nat, j: nat, k: nat)
    requires AllMade(bs) && j < k <= |bs| && Position(bs, k) <= cut <= |FileOf(bs)|
    ensures Position(bs, j) < Position(bs, j + 1) == Position(bs, j) + bs[j].batchBytes <= cut
    ensures BatchAt(FileOf(bs)[..cut], Position(bs, j), cut - Position(bs, j)) == Ok(bs[j])
  {
    hide Made, FileOf, BatchAt;
    PositionStep(bs, j);
    PositionsGrow(bs, j + 1, k);
    TornTailOf(bs, k, cut);
    BatchAtPosition(bs[..k], FileOf(bs)[Position(bs, k)..cut], j, cut - Position(bs, j));
    PositionOfTake(bs, k, j);
  }

  lemma IndexWholeBatch(opts: Options, base: i64, bs: seq<RecordBatch>, j: nat)
    requires Chain(bs, base) && base >= 0 && j < |bs|
    ensures Appended(base, opts.Interval(), SparseIndex(bs[..j], opts.Interval()), bs[j].baseOffset, Position(bs, j))
         == Ok(SparseIndex(bs[..j + 1], opts.Interval()))
  {
    hide FileOf, SparseIndex, Appended, Chain;
    ChainTake(bs, base, j + 1);
    assert bs[..j] + [bs[j]] == bs[..j + 1];
    IndexExtends(bs[..j], base, opts.Interval(), bs[j]);
  }

  lemma EndAfterBatch(base: i64, bs: seq<RecordBatch>, j: nat)
    requires Chain(bs, base) && base >= 0 && j < |bs| && EndOffset(bs, base) < TWO_63
    ensures var was, now := EndOffset(bs[..j], base), EndOffset(bs[..j + 1], base);
      && base <= was <= now < TWO_63 && now == bs[j].baseOffset + bs[j].recordCount
      && Max(was, Plus64(bs[j].baseOffset, ToI64(bs[j].recordCount))) == now
  {
    hide Made, EndOffset;
    ChainTake(bs, base, j + 1);
    ChainTake(bs, base, j);
    EndsGrow(bs, base, j + 1);
    EndsGrow(bs, base, j);
    assert Made(bs[j]);
    MadeBatchBytes(bs[j]);
  }

  lemma TornTailOf(bs: seq<RecordBatch>, k: nat, cut: nat)
    requires k <= |bs| && Position(bs, k) <= cut <= |FileOf(bs)|
    ensures FileOf(bs)[..cut] == FileOf(bs[..k]) + FileOf(bs)[Position(bs, k)..cut]
  {
    hide FileOf;
    assert bs == bs[..k] + bs[k..];
    FileOfConcat(bs[..k], bs[k..]);
  }

  // ---- Crash of a whole log ----

  /** The files after a crash that leaves only the first cut bytes of the last segment. */
  function CrashFiles(segments: seq<SegmentState>, cut: nat): (files: seq<SegmentFile>)
    requires segments != [] && cut <= |segments[|segments| - 1].file|
    ensures |files| == |segments|
  {
    var n := |segments| - 1;
    FilesOf(segments[..n]) + [SegmentFile(segments[n].base, segments[n].file[..cut])]
  }

  lemma CrashFilesAt(segments: seq<SegmentState>, cut: nat, i: nat)
    requires i < |segments| && cut <= |segments[|segments| - 1].file|
    ensures CrashFiles(segments, cut)[i] ==
      SegmentFile(segments[i].base, if i < |segments| - 1 then segments[i].file else segments[i].file[..cut])
  {
    if i < |segments| - 1 { FilesOfAt(segments[..|segments| - 1], i); }
  }

  /** The batches that survive: all sealed ones, and the whole ones before the cut. */
  function Surviving(chunks: seq<seq<RecordBatch>>, cut: nat): seq<seq<RecordBatch>>
    requires chunks != []
  {
    var n := |chunks| - 1;
    chunks[n := chunks[n][..WholeBatches(chunks[n], cut)]]
  }

  /** A segment holding exactly the given batches, indexed as Append would have. */
  function SegmentOf(opts: Options, base: i64, bs: seq<RecordBatch>): SegmentState {
    SegmentState(base, FileOf(bs), SparseIndex(bs, opts.Interval()))
  }

  /** The log that recovery should give back: the surviving batches, and nothing else. */
  ghost predicate IsSurvivor(opts: Options, st: LogState, chunks: seq<seq<RecordBatch>>, cut: nat, st': LogState)
    requires 0 < |chunks| == |st.segments|
    ensures IsSurvivor(opts, st, chunks, cut, st') ==> |st'.segments| == |st.segments|
  {
    var n := |chunks| - 1;
    var bs := Surviving(chunks, cut)[n];
    && st'.segments == st.segments[n := SegmentOf(opts, st.segments[n].base, bs)]
    && st'.next == EndOffset(bs, st.segments[n].base) <= st.next
    && !st'.closed
  }

  lemma HoldsSegmentOf(opts: Options, seg: SegmentState, bs: seq<RecordBatch>)
    requires Holds(opts, seg, bs)
    ensures seg == SegmentOf(opts, seg.base, bs) && Chain(bs, seg.base) && seg.base >= 0
  {
  }

  /** Recovering one segment file cut at some byte gives the segment of its whole batches. */
  lemma RecoverSegmentFile(opts: Options, seg: SegmentState, bs: seq<RecordBatch>, cut: nat, active: bool)
    requires Holds(opts, seg, bs) && EndOffset(bs, seg.base) < TWO_63
    requires cut <= |seg.file| && (active || cut == |seg.file|)
    ensures var k := WholeBatches(bs, cut);
      var r := Recover(opts, seg.base, seg.file[..cut], active, 0, seg.base, []);
      && seg.base <= EndOffset(bs[..k], seg.base) <= EndOffset(bs, seg.base)
      && Position(bs, k) <= cut
      && r == Ok(Recovered(Position(bs, k), EndOffset(bs[..k], seg.base), SparseIndex(bs[..k], opts.Interval())))
      && seg.file[..cut][..Position(bs, k)] == FileOf(bs[..k])
  {
    hide Recover, WholeBatches, Chain, EndOffset, FileOf, SparseIndex;
    HoldsSegmentOf(opts, seg, bs);
    var k := WholeBatches(bs, cut);
    WholeBatchesMaximal(bs, cut);
    PositionZero(bs);
    StartOfRecovery(opts, seg.base, bs);
    RecoverChain(opts, seg.base, bs, cut, active, 0, Recovered(0, seg.base, []));
    EndsGrow(bs, seg.base, k);
    TornTailOf(bs, k, |seg.file|);
    assert seg.file[..|seg.file|] == seg.file;
  }

  lemma StartOfRecovery(opts: Options, base: i64, bs: seq<RecordBatch>)
    ensures AfterBatches(opts, base, bs, 0, Recovered(0, base, []))
  {
    assert bs[..0] == [];
  }

  lemma WholeFile(bs: seq<RecordBatch>)
    ensures WholeBatches(bs, |FileOf(bs)|) == |bs| && bs[..|bs|] == bs
  {
  }

  lemma LoadSealed(opts: Options, files: seq<SegmentFile>, i: nat, segments: seq<SegmentState>, bs: seq<RecordBatch>)
    requires i < |files| - 1 && files[i].content == FileOf(bs)
    requires Holds(opts, SegmentOf(opts, files[i].base, bs), bs) && EndOffset(bs, files[i].base) < TWO_63
    ensures files[i].base <= EndOffset(bs, files[i].base)
    ensures var (loaded, rest) := LoadFrom(opts, files, i + 1, segments + [SegmentOf(opts, files[i].base, bs)],
                                           EndOffset(bs, files[i].base));
      LoadFrom(opts, files, i, segments, files[i].base) == (loaded, [files[i]] + rest)
  {
    hide Recover, WholeBatches, Holds, EndOffset, FileOf, SparseIndex, LoadFrom;
    var f := files[i];
    var seg := SegmentOf(opts, f.base, bs);
    RecoverSegmentFile(opts, seg, bs, |f.content|, false);
    WholeFile(bs);
    assert f.content[..|f.content|] == f.content;
    LoadStep(opts, files, i, segments, f.base);
  }

  lemma LoadLast(opts: Options, st: LogState, chunks: seq<seq<RecordBatch>>, cut: nat) returns (st': LogState)
    requires Represents(opts, st, chunks) && cut <= |st.segments[|st.segments| - 1].file|
    ensures IsSurvivor(opts, st, chunks, cut, st')
    ensures var n := |st.segments| - 1;
      LoadFrom(opts, CrashFiles(st.segments, cut), n, st.segments[..n], st.segments[n].base)
        == (Ok(st'), [SegmentFile(st.segments[n].base, st'.segments[n].file)])
  {
    hide Recover, WholeBatches, Holds, EndOffset, FileOf, SparseIndex, LoadFrom, Laid;
    var n := |st.segments| - 1;
    var seg, bs := st.segments[n], chunks[n];
    LaidAt(opts, st.segments, chunks, n);
    EndInRange(opts, st, chunks, n);
    HoldsSegmentOf(opts, seg, bs);
    RecoverSegmentFile(opts, seg, bs, cut, true);
    var r := Recover(opts, seg.base, seg.file[..cut], true, 0, seg.base, []).value;
    st' := LogState(st.segments[n := SegmentOf(opts, seg.base, Surviving(chunks, cut)[n])], r.next, false);
    assert st.segments[..n] + [st'.segments[n]] == st'.segments;
    var files := CrashFiles(st.segments, cut);
    CrashFilesAt(st.segments, cut, n);
    LoadStep(opts, files, n, st.segments[..n], seg.base);
    LoadEnd(opts, files, st'.segments, st'.next);
    var last := [SegmentFile(seg.base, st'.segments[n].file)];
    assert last + [] == last;
  }

  /** Loading the files a crash left, from the i-th on with the earlier ones already loaded, ends in the
      survivor st' and reports its files. */
  ghost predicate ReloadsTo(opts: Options, st: LogState, chunks: seq<seq<RecordBatch>>, cut: nat, i: nat, st': LogState)
    requires 0 < |chunks| == |st.segments| && i < |st.segments|
    requires cut <= |st.segments[|st.segments| - 1].file|
  {
    IsSurvivor(opts, st, chunks, cut, st') &&
    LoadFrom(opts, CrashFiles(st.segments, cut), i, st.segments[..i], st.segments[i].base)
      == (Ok(st'), FilesOf(st'.segments)[i..])
  }

  lemma {:induction false} LoadAfterCrash(opts: Options, st: LogState, chunks: seq<seq<RecordBatch>>, cut: nat, i: nat)
    returns (st': LogState)
    requires Represents(opts, st, chunks) && i < |st.segments|
    requires cut <= |st.segments[|st.segments| - 1].file|
    ensures ReloadsTo(opts, st, chunks, cut, i, st')
    decreases |st.segments| - i
  {
    hide Represents, Laid, Holds, IsSurvivor, EndOffset, LoadFrom, CrashFiles, FilesOf, Surviving;
    if i < |st.segments| - 1 {
      st' := LoadAfterCrash(opts, st, chunks, cut, i + 1);
      SealedSegment(opts, st, chunks, i);
      CrashFilesAt(st.segments, cut, i);
      LoadSealed(opts, CrashFiles(st.segments, cut), i, st.segments[..i], chunks[i]);
      assert st.segments[..i] + [st.segments[i]] == st.segments[..i + 1];
    } else {
      st' := LoadLast(opts, st, chunks, cut);
    }
    SurvivorFiles(opts, st, chunks, cut, st', i);
  }

  lemma SealedSegment(opts: Options, st: LogState, chunks: seq<seq<RecordBatch>>, i: nat)
    requires Represents(opts, st, chunks) && i < |st.segments| - 1
    ensures st.segments[i] == SegmentOf(opts, st.segments[i].base, chunks[i])
    ensures Holds(opts, st.segments[i], chunks[i])
    ensures EndOffset(chunks[i], st.segments[i].base) == st.segments[i + 1].base
  {
    hide Holds, EndOffset, Laid;
    LaidAt(opts, st.segments, chunks, i);
    HoldsSegmentOf(opts, st.segments[i], chunks[i]);
  }

  lemma SurvivorFiles(opts: Options, st: LogState, chunks: seq<seq<RecordBatch>>, cut: nat, st': LogState, i: nat)
    requires 0 < |chunks| == |st.segments| && IsSurvivor(opts, st, chunks, cut, st') && i < |st.segments|
    ensures var n, files := |st.segments| - 1, FilesOf(st'.segments);
      if i < n then files[i..] == [SegmentFile(st.segments[i].base, st.segments[i].file)] + files[i + 1..]
      else files[i..] == [SegmentFile(st.segments[n].base, st'.segments[n].file)]
  {
    hide Surviving, EndOffset, FileOf, SparseIndex, FilesOf;
    FilesOfAt(st'.segments, i);
  }

  lemma LaidAt(opts: Options, segments: seq<SegmentState>, chunks: seq<seq<RecordBatch>>, i: nat)
    requires Laid(opts, segments, chunks) && i < |chunks|
    ensures |segments| == |chunks| && Holds(opts, segments[i], chunks[i])
    ensures i < |chunks| - 1 ==> segments[i + 1].base == EndOffset(chunks[i], segments[i].base)
  {
    if i < |chunks| - 1 { assert Adjacent(segments, chunks, i + 1); }
  }

  lemma EndInRange(opts: Options, st: LogState, chunks: seq<seq<RecordBatch>>, i: nat)
    requires Represents(opts, st, chunks) && i < |chunks|
    ensures EndOffset(chunks[i], st.segments[i].base) < TWO_63
  {
    if i < |chunks| - 1 { assert Adjacent(st.segments, chunks, i + 1); }
  }

  lemma LoadStep(opts: Options, files: seq<SegmentFile>, i: nat, segments: seq<SegmentState>, next: i64)
    requires i < |files|
    requires Recover(opts, files[i].base, files[i].content, i == |files| - 1, 0, files[i].base, []).Ok?
    ensures var r := Recover(opts, files[i].base, files[i].content, i == |files| - 1, 0, files[i].base, []).value;
      var kept := files[i].content[..r.keep];
      var (st, rest) := LoadFrom(opts, files, i + 1, segments + [SegmentState(files[i].base, kept, r.entries)],
                                 Max(next, r.next));
      LoadFrom(opts, files, i, segments, next) == (st, [SegmentFile(files[i].base, kept)] + rest)
  {
    hide Recover;
  }

  lemma LoadEnd(opts: Options, files: seq<SegmentFile>, segments: seq<SegmentState>, next: i64)
    ensures LoadFrom(opts, files, |files|, segments, next) == (Ok(LogState(segments, next, false)), [])
  {
  }

  lemma {:induction false} FlatTake(bs: seq<RecordBatch>, k: nat)
    requires k <= |bs|
    ensures Flat(bs[..k]) <= Flat(bs)
  {
    assert bs == bs[..k] + bs[k..];
    FlatConcat(bs[..k], bs[k..]);
  }

  lemma SurvivorIsPrefix(chunks: seq<seq<RecordBatch>>, cut: nat)
    requires chunks != []
    ensures FlatLog(Surviving(chunks, cut)) <= FlatLog(chunks)
  {
    hide Flat, WholeBatches;
    var n := |chunks| - 1;
    assert Surviving(chunks, cut)[..n] == chunks[..n];
    FlatTake(chunks[n], WholeBatches(chunks[n], cut));
  }

  lemma SurvivorRepresented(opts: Options, st: LogState, chunks: seq<seq<RecordBatch>>, cut: nat, st': LogState)
    requires Represents(opts, st, chunks) && IsSurvivor(opts, st, chunks, cut, st')
    ensures Represents(opts, st', Surviving(chunks, cut)) && !st'.closed
  {
    hide Laid, Holds, EndOffset, WholeBatches, SegmentOf;
    var n := |chunks| - 1;
    var bs := Surviving(chunks, cut)[n];
    LastHolds(opts, st.segments, chunks);
    HoldsTake(opts, st.segments[n], chunks[n], WholeBatches(chunks[n], cut));
    LastReplaced(opts, st.segments, chunks, SegmentOf(opts, st.segments[n].base, bs), bs);
  }

  lemma HoldsTake(opts: Options, seg: SegmentState, bs: seq<RecordBatch>, k: nat)
    requires Holds(opts, seg, bs) && k <= |bs|
    ensures SegmentOf(opts, seg.base, bs[..k]).base == seg.base
    ensures Holds(opts, SegmentOf(opts, seg.base, bs[..k]), bs[..k])
  {
    hide Chain, FileOf, SparseIndex;
    ChainTake(bs, seg.base, k);
  }

  /** After any crash that cuts the last segment file, at whatever byte, Open gives the log of the
      longest prefix of whole batches, indexed as Append had indexed it; both recovery modes agree
      and the files hold exactly that log afterwards. */
  lemma CrashKeepsWholeBatches(opts: Options, st: LogState, chunks: seq<seq<RecordBatch>>, cut: nat)
    returns (st': LogState)
    requires Represents(opts, st, chunks) && cut <= |st.segments[|st.segments| - 1].file|
    requires opts.segmentBytes >= BATCH_HEADER_BYTES
    ensures forall strict ::
      Open(opts.(strictRecovery := strict), CrashFiles(st.segments, cut)) == (Ok(st'), FilesOf(st'.segments))
    ensures Represents(opts, st', Surviving(chunks, cut)) && !st'.closed
    ensures st'.next == |FlatLog(Surviving(chunks, cut))| && FlatLog(Surviving(chunks, cut)) <= FlatLog(chunks)
    ensures var last := chunks[|chunks| - 1];
      var k := WholeBatches(last, cut);
      Position(last, k) <= cut && (k < |last| ==> cut < Position(last, k + 1))
  {
    hide Represents, IsSurvivor, Open, CrashFiles, FilesOf, FlatLog, Surviving, WholeBatches, Position;
    st' := LoadAfterCrash(opts, st, chunks, cut, 0);
    SurvivorRepresented(opts, st, chunks, cut, st');
    SurvivorIsPrefix(chunks, cut);
    NextCountsRecords(opts, st', Surviving(chunks, cut));
    WholeBatchesMaximal(chunks[|chunks| - 1], cut);
    forall strict
      ensures Open(opts.(strictRecovery := strict), CrashFiles(st.segments, cut)) == (Ok(st'), FilesOf(st'.segments))
    {
      OpenAfterCrash(opts.(strictRecovery := strict), opts, st, chunks, cut, st');
    }
  }

  lemma SameMode(opts: Options, opts': Options, st: LogState, chunks: seq<seq<RecordBatch>>)
    requires opts'.Interval() == opts.Interval() && Represents(opts, st, chunks)
    ensures Represents(opts', st, chunks)
  {
    hide Chain, FileOf, SparseIndex, EndOffset;
    forall s | 0 <= s < |chunks| ensures Holds(opts', st.segments[s], chunks[s]) {
      assert Holds(opts, st.segments[s], chunks[s]);
    }
  }

  lemma OneSurvivor(opts: Options, opts': Options, st: LogState, chunks: seq<seq<RecordBatch>>, cut: nat,
                    a: LogState, b: LogState)
    requires opts'.Interval() == opts.Interval() && 0 < |chunks| == |st.segments|
    requires IsSurvivor(opts, st, chunks, cut, a) && IsSurvivor(opts', st, chunks, cut, b)
    ensures a == b
  {
    hide EndOffset, Surviving, FileOf, SparseIndex;
  }

  lemma OpenAfterCrash(opts: Options, opts': Options, st: LogState, chunks: seq<seq<RecordBatch>>, cut: nat,
                       st': LogState)
    requires Represents(opts', st, chunks) && IsSurvivor(opts', st, chunks, cut, st')
    requires opts.Interval() == opts'.Interval() && opts.segmentBytes >= BATCH_HEADER_BYTES
    requires cut <= |st.segments[|st.segments| - 1].file|
    ensures Open(opts, CrashFiles(st.segments, cut)) == (Ok(st'), FilesOf(st'.segments))
  {
    SameMode(opts', opts, st, chunks);
    var found := LoadAfterCrash(opts, st, chunks, cut, 0);
    OneSurvivor(opts', opts, st, chunks, cut, st', found);
    hide Laid, IsSurvivor, CrashFiles, FilesOf, LoadFrom;
    FirstBase(opts, st, chunks);
    assert st.segments[..0] == [] && FilesOf(st'.segments)[0..] == FilesOf(st'.segments);
  }

  lemma FirstBase(opts: Options, st: LogState, chunks: seq<seq<RecordBatch>>)
    requires Represents(opts, st, chunks)
    ensures st.segments[0].base == 0
  {
  }
}
