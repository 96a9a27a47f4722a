/** Segments made of whole batches with contiguous offsets, and the sparse index built for them. */
module LogLayout {
  import opened Basics
  import opened Records
  import opened RecordBatches
  import opened Segments
  import opened OffsetIndexes

  /** Whole batches whose offsets run on from base without a gap. */
  ghost predicate Chain(bs: seq<RecordBatch>, base: int) {
    && AllMade(bs)
    && (bs != [] ==> bs[0].baseOffset == base)
    && forall i, j :: 0 <= i < j < |bs| && j == i + 1 ==> bs[j].baseOffset == bs[i].baseOffset + bs[i].recordCount
  }

  /** The offset that follows the batches. */
  function EndOffset(bs: seq<RecordBatch>, base: int): int {
    if bs == [] then base else bs[|bs| - 1].baseOffset + bs[|bs| - 1].recordCount
  }

  /** The records of the batches, one after another. */
  function Flat(bs: seq<RecordBatch>): seq<Record> {
    if bs == [] then [] else Flat(bs[..|bs| - 1]) + bs[|bs| - 1].records
  }

  lemma ChainMade(bs: seq<RecordBatch>, base: int)
    requires Chain(bs, base)
    ensures AllMade(bs)
  {
  }

  lemma ChainTake(bs: seq<RecordBatch>, base: int, n: nat)
    requires Chain(bs, base) && n <= |bs|
    ensures Chain(bs[..n], base)
    ensures n < |bs| ==> EndOffset(bs[..n], base) == bs[n].baseOffset
    ensures 0 < n ==> EndOffset(bs[..n], base) == bs[n - 1].baseOffset + bs[n - 1].recordCount
  {
    hide Made;
  }

  lemma {:induction false} ChainFlat(bs: seq<RecordBatch>, base: int)
    requires Chain(bs, base)
    ensures |Flat(bs)| == EndOffset(bs, base) - base
    ensures base <= EndOffset(bs, base)
  {
    hide Made, MadeBatch;
    if bs != [] {
      var n := |bs| - 1;
      ChainTake(bs, base, n);
      ChainFlat(bs[..n], base);
      assert Made(bs[n]);
      MadeBatchBytes(bs[n]);
    }
  }

  /** Later batches start at or after the end of earlier ones. */
  lemma {:induction false} ChainIncreasing(bs: seq<RecordBatch>, base: int, i: nat, j: nat)
    requires Chain(bs, base) && i < j < |bs|
    ensures bs[i].baseOffset + bs[i].recordCount <= bs[j].baseOffset
    ensures bs[i].baseOffset < bs[j].baseOffset
    decreases j
  {
    hide Made;
    assert Made(bs[i]) && Made(bs[j - 1]);
    MadeBatchBytes(bs[i]);
    MadeBatchBytes(bs[j - 1]);
    if i < j - 1 {
      ChainIncreasing(bs, base, i, j - 1);
    }
  }

  lemma {:induction false} FlatConcat(a: seq<RecordBatch>, b: seq<RecordBatch>)
    ensures Flat(a + b) == Flat(a) + Flat(b)
  {
    if b == [] {
      assert a + b == a;
    } else {
      assert (a + b)[..|a + b| - 1] == a + b[..|b| - 1];
      FlatConcat(a, b[..|b| - 1]);
    }
  }

  lemma FlatSingle(b: RecordBatch)
    ensures Flat([b]) == b.records
  {
    assert [b][..0] == [];
  }

  lemma FlatSplit(bs: seq<RecordBatch>, i: nat)
    requires i < |bs|
    ensures Flat(bs) == Flat(bs[..i]) + (bs[i].records + Flat(bs[i + 1..]))
  {
    hide Flat;
    var pre, mid, post := bs[..i], [bs[i]], bs[i + 1..];
    SplitAt(bs, i);
    FlatConcat(pre, mid + post);
    FlatConcat(mid, post);
    FlatSingle(bs[i]);
  }

  /** The records of batch i sit in the flat log at its base offset. */
  lemma FlatAt(bs: seq<RecordBatch>, base: int, i: nat, offset: int)
    requires Chain(bs, base) && i < |bs|
    requires bs[i].baseOffset <= offset < bs[i].baseOffset + bs[i].recordCount
    ensures |bs[i].records| == bs[i].recordCount
    ensures base <= offset < base + |Flat(bs)|
    ensures Flat(bs)[offset - base] == bs[i].records[offset - bs[i].baseOffset]
  {
    hide Made, MadeBatch, Flat, EndOffset;
    assert Made(bs[i]);
    MadeBatchBytes(bs[i]);
    ChainTake(bs, base, i);
    ChainFlat(bs[..i], base);
    hide Chain;
    FlatSplit(bs, i);
    MiddleOf(Flat(bs[..i]), bs[i].records, Flat(bs[i + 1..]), offset - bs[i].baseOffset);
  }

  /** Which batch of a chain holds an offset. */
  lemma {:induction false} BatchHolding(bs: seq<RecordBatch>, base: int, offset: int) returns (i: nat)
    requires Chain(bs, base) && base <= offset < EndOffset(bs, base)
    ensures i < |bs| && bs[i].baseOffset <= offset < bs[i].baseOffset + bs[i].recordCount
    decreases |bs|
  {
    hide Made;
    var n := |bs| - 1;
    if bs[n].baseOffset <= offset {
      i := n;
    } else {
      ChainTake(bs, base, n);
      i := BatchHolding(bs[..n], base, offset);
    }
  }

  // ---- Positions grow by at least the smallest batch ----

  lemma PositionStep(bs: seq<RecordBatch>, i: nat)
    requires AllMade(bs) && i < |bs|
    ensures Position(bs, i + 1) == Position(bs, i) + bs[i].batchBytes <= |FileOf(bs)|
    ensures MIN_BATCH_BYTES <= bs[i].batchBytes
  {
    hide Made, FileOf, BatchBytes;
    assert Made(bs[i]);
    MadeBatchBytes(bs[i]);
    FileOfSplit(bs, i);
  }

  lemma PositionLast(bs: seq<RecordBatch>)
    ensures Position(bs, |bs|) == |FileOf(bs)|
  {
    assert bs[..|bs|] == bs;
  }

  lemma {:induction false} PositionsGrow(bs: seq<RecordBatch>, i: nat, j: nat)
    requires AllMade(bs) && i <= j <= |bs|
    ensures Position(bs, i) + MIN_BATCH_BYTES * (j - i) <= Position(bs, j) <= |FileOf(bs)|
    decreases |bs| - i
  {
    hide Position, AllMade;
    if i < j {
      PositionStep(bs, i);
      PositionsGrow(bs, i + 1, j);
    } else if i < |bs| {
      PositionStep(bs, i);
      PositionsGrow(bs, i + 1, |bs|);
    } else {
      PositionLast(bs);
    }
  }

  lemma PositionOfTake(bs: seq<RecordBatch>, n: nat, i: nat)
    requires i <= n <= |bs|
    ensures Position(bs[..n], i) == Position(bs, i)
  {
    assert bs[..n][..i] == bs[..i];
  }

  // ---- The sparse index ----

  /** Which batches the index holds: the first, then each that starts at least interval bytes
      after the last one indexed. */
  function Indexed(bs: seq<RecordBatch>, interval: nat): (js: seq<nat>)
    ensures forall k :: 0 <= k < |js| ==> js[k] < |bs|
    ensures forall k, l :: 0 <= k < l < |js| ==> js[k] < js[l]
    ensures bs == [] <==> js == []
    ensures bs != [] ==> js[0] == 0
  {
    if bs == [] then []
    else
      var n := |bs| - 1;
      var js := Indexed(bs[..n], interval);
      if js == [] then [n]
      else if Position(bs, n) < Position(bs, js[|js| - 1]) + interval then js
      else js + [n]
  }

  function EntryFor(bs: seq<RecordBatch>, j: nat): IndexEntry
    requires j < |bs|
  {
    IndexEntry(bs[j].baseOffset, Position(bs, j))
  }

  function SparseIndex(bs: seq<RecordBatch>, interval: nat): (entries: seq<IndexEntry>)
    ensures |entries| == |Indexed(bs, interval)|
    ensures forall k :: 0 <= k < |entries| ==> entries[k] == EntryFor(bs, Indexed(bs, interval)[k])
  {
    var js := Indexed(bs, interval);
    seq(|js|, k requires 0 <= k < |js| => EntryFor(bs, js[k]))
  }

  /** Slot k of the index holds the last indexed batch at or before i, which starts less than
      interval bytes before it. */
  ghost predicate Covers(bs: seq<RecordBatch>, interval: nat, i: nat, k: nat)
    requires i < |bs|
  {
    var js := Indexed(bs, interval);
    && k < |js| && js[k] <= i
    && (k + 1 < |js| ==> i < js[k + 1])
    && Position(bs, js[k]) <= Position(bs, i) < Position(bs, js[k]) + interval
  }

  lemma CoversLonger(bs: seq<RecordBatch>, interval: nat, i: nat, k: nat)
    requires i < |bs| - 1 && Covers(bs[..|bs| - 1], interval, i, k)
    ensures Covers(bs, interval, i, k)
  {
    hide Position, Indexed;
    var n := |bs| - 1;
    var before, js := Indexed(bs[..n], interval), Indexed(bs, interval);
    IndexedNext(bs, interval);
    assert before <= js;
    PositionOfTake(bs, n, i);
    PositionOfTake(bs, n, before[k]);
  }

  /** Every batch starts less than interval bytes after the last indexed batch at or before it. */
  lemma {:induction false} SparseEnough(bs: seq<RecordBatch>, interval: nat, i: nat) returns (k: nat)
    requires AllMade(bs) && i < |bs| && interval > 0
    ensures Covers(bs, interval, i, k)
    decreases |bs|
  {
    hide Made, Position, FileOf, Indexed;
    var n := |bs| - 1;
    if i < n {
      k := SparseEnough(bs[..n], interval, i);
      CoversLonger(bs, interval, i, k);
    } else {
      var js := Indexed(bs, interval);
      IndexedNext(bs, interval);
      k := |js| - 1;
      PositionsGrow(bs, js[k], i);
    }
  }

  /** And no two indexed batches start less than interval bytes apart: the index is no denser than that. */
  lemma {:induction false} EntriesApart(bs: seq<RecordBatch>, interval: nat, k: nat)
    requires k + 1 < |SparseIndex(bs, interval)|
    ensures SparseIndex(bs, interval)[k].position + interval <= SparseIndex(bs, interval)[k + 1].position
    decreases |bs|
  {
    hide Position;
    var n := |bs| - 1;
    var before, js := Indexed(bs[..n], interval), Indexed(bs, interval);
    IndexedNext(bs, interval);
    if k + 1 < |before| {
      EntriesApart(bs[..n], interval, k);
      PositionOfTake(bs, n, before[k]);
      PositionOfTake(bs, n, before[k + 1]);
    }
  }

  lemma EntriesOfTake(bs: seq<RecordBatch>, n: nat, js: seq<nat>)
    requires n <= |bs| && forall k :: 0 <= k < |js| ==> js[k] < n
    ensures forall k :: 0 <= k < |js| ==> EntryFor(bs[..n], js[k]) == EntryFor(bs, js[k])
  {
    forall k | 0 <= k < |js| ensures EntryFor(bs[..n], js[k]) == EntryFor(bs, js[k]) {
      PositionOfTake(bs, n, js[k]);
    }
  }

  /** One step of Indexed, with every position measured in the longer file. */
  lemma IndexedNext(bs: seq<RecordBatch>, interval: nat)
    requires bs != []
    ensures var n := |bs| - 1;
      var js := Indexed(bs[..n], interval);
      Indexed(bs, interval) ==
        if js != [] && Position(bs, n) < Position(bs, js[|js| - 1]) + interval then js else js + [n]
  {
    hide Position;
  }

  /** One step of SparseIndex. */
  lemma SparseIndexNext(bs: seq<RecordBatch>, interval: nat)
    requires bs != []
    ensures var n := |bs| - 1;
      var js, was := Indexed(bs[..n], interval), SparseIndex(bs[..n], interval);
      SparseIndex(bs, interval) ==
        if js != [] && Position(bs, n) < Position(bs, js[|js| - 1]) + interval then was
        else was + [EntryFor(bs, n)]
  {
    hide Position, Indexed, SparseIndex;
    var n := |bs| - 1;
    var js := Indexed(bs[..n], interval);
    IndexedNext(bs, interval);
    EntriesOfTake(bs, n, js);
  }

  /** The last entry of the index lies before a batch that continues the chain. */
  lemma LastIndexed(bs: seq<RecordBatch>, base: int, interval: nat, b: RecordBatch)
    requires Chain(bs + [b], base) && bs != []
    ensures var js, entries := Indexed(bs, interval), SparseIndex(bs, interval);
      var last := js[|js| - 1];
      && entries != [] && entries[|entries| - 1] == EntryFor(bs + [b], last)
      && entries[|entries| - 1].offset < b.baseOffset && entries[|entries| - 1].position <= Position(bs + [b], |bs|)
  {
    hide Made, FileOf, Position, Indexed, SparseIndex;
    var all, n, js := bs + [b], |bs|, Indexed(bs, interval);
    var j := js[|js| - 1];
    assert all[..n] == bs && all[j] == bs[j];
    ChainIncreasing(all, base, j, n);
    PositionsGrow(all, j, n);
    PositionOfTake(all, n, j);
  }

  /** The batch that continues a chain starts where the file of the chain ends. */
  lemma NextInChain(bs: seq<RecordBatch>, base: int, b: RecordBatch)
    requires Chain(bs + [b], base)
    ensures base <= b.baseOffset && Position(bs + [b], |bs|) == |FileOf(bs)|
  {
    hide Made, FileOf, Position, Chain;
    var all, n := bs + [b], |bs|;
    assert all[..n] == bs && all[n] == b;
    ChainTake(all, base, n);
    ChainFlat(bs, base);
    PositionOfTake(all, n, n);
    PositionLast(bs);
  }

  /** MaybeAppend, called for the next batch of a chain, never fails and yields the sparse index. */
  lemma IndexExtends(bs: seq<RecordBatch>, base: int, interval: nat, b: RecordBatch)
    requires Chain(bs + [b], base) && base >= 0
    ensures Appended(base, interval, SparseIndex(bs, interval), b.baseOffset, |FileOf(bs)|)
         == Ok(SparseIndex(bs + [b], interval))
  {
    hide Made, FileOf, Position, Indexed, SparseIndex, Chain;
    var all, n := bs + [b], |bs|;
    assert all[..n] == bs && all[n] == b;
    NextInChain(bs, base, b);
    SparseIndexNext(all, interval);
    if bs != [] {
      LastIndexed(bs, base, interval, b);
    } else {
      assert SparseIndex(bs, interval) == [];
      assert SparseIndex(all, interval) == [EntryFor(all, n)];
    }
  }

  /** The floor entry of an offset inside batch i is the last indexed batch at or before i. */
  lemma FloorEntry(bs: seq<RecordBatch>, base: int, interval: nat, i: nat, offset: i64) returns (j: nat)
    requires Chain(bs, base) && i < |bs| && interval > 0
    requires bs[i].baseOffset <= offset < bs[i].baseOffset + bs[i].recordCount
    ensures j <= i && Floor(SparseIndex(bs, interval), offset) == Ok(EntryFor(bs, j))
    ensures Position(bs, i) < Position(bs, j) + interval
  {
    hide Chain, AllMade, FileOf, Position, Indexed, SparseIndex;
    ChainMade(bs, base);
    var k := SparseEnough(bs, interval, i);
    var js := Indexed(bs, interval);
    j := js[k];
    var entries := SparseIndex(bs, interval);
    forall l | 0 <= l <= k ensures entries[l].offset <= offset {
      if js[l] < i { ChainIncreasing(bs, base, js[l], i); }
    }
    forall l | k < l < |entries| ensures offset < entries[l].offset {
      ChainIncreasing(bs, base, i, js[l]);
    }
    FloorAt(entries, offset, k + 1);
  }
}
