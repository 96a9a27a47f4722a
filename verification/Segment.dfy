/** One segment file: batches appended back to back, read back by byte position. */
module Segments {
  import opened Basics
  import opened Checksum
  import opened RecordBatches

  /** The bytes a pread of `length` bytes at `position` returns. */
  function FileRead(file: bytes, position: nat, length: nat): (r: bytes)
    ensures |r| <= length
  {
    file[Min(position, |file|)..Min(position + length, |file|)]
  }

  /** The file after a pwrite at `position`, which is never past its end. */
  function FileWritten(file: bytes, data: bytes, position: nat): bytes
    requires position <= |file|
  {
    file[..position] + data + file[Min(position + |data|, |file|)..]
  }

  /** The file after ftruncate: cut, or extended with zero bytes. */
  function FileTruncated(file: bytes, size: nat): (r: bytes)
    ensures |r| == size
  {
    if size <= |file| then file[..size] else file + seq(size - |file|, _ => 0)
  }

  /** Segment::Read as a function of the file. */
  function BatchAt(file: bytes, position: nat, maxBytes: nat): (r: Result<RecordBatch>)
    ensures r.Ok? ==> BATCH_HEADER_BYTES <= r.value.batchBytes <= maxBytes
    ensures r.Ok? ==> position + r.value.batchBytes <= |file|
  {
    if maxBytes < BATCH_HEADER_BYTES then Err(InvalidArgument)
    else
      var header := FileRead(file, position, BATCH_HEADER_BYTES);
      if |header| == 0 then Err(NotFound)
      else if |header| != BATCH_HEADER_BYTES then Err(Corruption)
      else
        var size :- DeclaredBytes(header);
        if size > maxBytes then Err(InvalidArgument)
        else if position + size > |file| then Err(Corruption)
        else
          var encoded := file[position..position + size];
          assert encoded[..BATCH_HEADER_BYTES] == header;
          DeclaredByHeader(encoded);
          BatchIn(encoded)
  }

  class Segment {
    const baseOffset: i64
    var file: bytes
    var writePosition: nat
    var closed: bool

    ghost predicate Valid()
      reads this
    {
      baseOffset >= 0 && writePosition == |file|
    }

    /** Segment::Open on a file that holds `content`. */
    constructor (base: i64, content: bytes)
      requires base >= 0
      ensures Valid() && baseOffset == base && file == content && !closed
    {
      baseOffset := base;
      file := content;
      writePosition := |content|;
      closed := false;
    }

    method Append(batch: RecordBatch) returns (r: Result<nat>)
      requires Valid()
      modifies this
      ensures Valid() && closed == old(closed)
      ensures if closed then r == Err(InvalidArgument) && file == old(file)
              else if EncodedBatch(batch).Err? then r == Err(EncodedBatch(batch).error) && file == old(file)
              else r == Ok(|old(file)|) && file == old(file) + EncodedBatch(batch).value
    {
      hide EncodedBatch;
      if closed {
        return Err(InvalidArgument);
      }
      var encoded := EncodeRecordBatch(batch);
      if encoded.Err? {
        return Err(encoded.error);
      }
      var position := writePosition;
      file := FileWritten(file, encoded.value, position);
      writePosition := writePosition + |encoded.value|;
      return Ok(position);
    }

    method Read(position: nat, maxBytes: nat) returns (r: Result<RecordBatch>)
      requires Valid()
      ensures r == if closed then Err(InvalidArgument) else BatchAt(file, position, maxBytes)
    {
      hide BatchIn, DeclaredBytes;
      if closed {
        return Err(InvalidArgument);
      }
      if maxBytes < BATCH_HEADER_BYTES {
        return Err(InvalidArgument);
      }
      var header := FileRead(file, position, BATCH_HEADER_BYTES);
      if |header| == 0 {
        return Err(NotFound);
      }
      if |header| != BATCH_HEADER_BYTES {
        return Err(Corruption);
      }
      var size := PeekRecordBatchBytes(header);
      if size.Err? {
        return Err(size.error);
      }
      if size.value > maxBytes {
        return Err(InvalidArgument);
      }
      var encoded := FileRead(file, position, size.value);
      if |encoded| != size.value {
        return Err(Corruption);
      }
      r := DecodeRecordBatch(encoded);
    }

    method Truncate(size: nat) returns (r: Result<Unit>)
      requires Valid()
      modifies this
      ensures Valid() && closed == old(closed)
      ensures if closed then r == Err(InvalidArgument) && file == old(file)
              else r == Ok(Unit) && file == FileTruncated(old(file), size)
    {
      if closed {
        return Err(InvalidArgument);
      }
      file := FileTruncated(file, size);
      writePosition := size;
      return Ok(Unit);
    }

    method Close()
      requires Valid()
      modifies this
      ensures Valid() && closed && file == old(file)
    {
      closed := true;
    }
  }

  // ---- Files made of whole batches ----

  /** A batch as MakeRecordBatch builds it: sizes, checksums and record stamps all agree. */
  predicate Made(b: RecordBatch) {
    MadeBatch(b.baseOffset, b.records) == Ok(b)
  }

  predicate AllMade(bs: seq<RecordBatch>) {
    forall i :: 0 <= i < |bs| ==> Made(bs[i])
  }

  function BatchBytes(b: RecordBatch): bytes {
    if EncodedBatch(b).Ok? then EncodedBatch(b).value else []
  }

  /** The smallest batch: a header and one record with empty key and value. */
  const MIN_BATCH_BYTES: nat := 52

  lemma MadeBatchBytes(b: RecordBatch)
    requires Made(b)
    ensures EncodedBatch(b) == Ok(BatchBytes(b))
    ensures |BatchBytes(b)| == b.batchBytes >= MIN_BATCH_BYTES
    ensures 0 < |b.records| == b.recordCount && b.baseOffset >= 0
    ensures BatchIn(BatchBytes(b)) == Ok(b)
  {
    hide Crc32Of, BatchIn;
    BatchRoundTrip(b.baseOffset, b.records, []);
    PayloadHoldsRecords(b.records);
    assert BatchBytes(b) + [] == BatchBytes(b);
  }

  function FileOf(bs: seq<RecordBatch>): bytes {
    if bs == [] then [] else FileOf(bs[..|bs| - 1]) + BatchBytes(bs[|bs| - 1])
  }

  /** Where batch i starts. */
  function Position(bs: seq<RecordBatch>, i: nat): nat
    requires i <= |bs|
  {
    |FileOf(bs[..i])|
  }

  lemma {:induction false} FileOfConcat(a: seq<RecordBatch>, b: seq<RecordBatch>)
    ensures FileOf(a + b) == FileOf(a) + FileOf(b)
  {
    hide BatchBytes;
    if b == [] {
      assert a + b == a;
    } else {
      var n := |b| - 1;
      assert (a + b)[..|a + b| - 1] == a + b[..n];
      FileOfConcat(a, b[..n]);
    }
  }

  lemma FileOfSplit(bs: seq<RecordBatch>, i: nat)
    requires i < |bs|
    ensures FileOf(bs) == FileOf(bs[..i]) + BatchBytes(bs[i]) + FileOf(bs[i + 1..])
    ensures Position(bs, i + 1) == Position(bs, i) + |BatchBytes(bs[i])| <= |FileOf(bs)|
  {
    hide BatchBytes;
    assert bs == bs[..i + 1] + bs[i + 1..];
    FileOfConcat(bs[..i + 1], bs[i + 1..]);
    assert bs[..i + 1][..i] == bs[..i];
  }

  /** A batch whose header starts the file at `position` declares its own size. */
  lemma DeclaredBytesOf(b: RecordBatch, rest: bytes)
    requires Made(b)
    ensures |BatchBytes(b)| >= BATCH_HEADER_BYTES
    ensures DeclaredBytes((BatchBytes(b) + rest)[..BATCH_HEADER_BYTES]) == Ok(b.batchBytes)
  {
    hide BatchIn, DeclaredBytes, BatchBytes, Made;
    MadeBatchBytes(b);
    var encoded := BatchBytes(b);
    DeclaredByHeader(encoded);
    assert (encoded + rest)[..BATCH_HEADER_BYTES] == encoded[..BATCH_HEADER_BYTES];
  }

  lemma ReadInside(pre: bytes, tail: bytes, length: nat)
    requires length <= |tail|
    ensures FileRead(pre + tail, |pre|, length) == tail[..length]
    ensures (pre + tail)[|pre|..|pre| + length] == tail[..length]
  {
  }

  /** A batch whose declared bytes are all there is read if the budget allows it. */
  lemma BatchAtDeclared(file: bytes, position: nat, maxBytes: nat, size: nat)
    requires BATCH_HEADER_BYTES <= size && position + size <= |file|
    requires DeclaredBytes(FileRead(file, position, BATCH_HEADER_BYTES)) == Ok(size)
    ensures BatchAt(file, position, maxBytes)
         == if size > maxBytes then Err(InvalidArgument) else BatchIn(file[position..position + size])
  {
    hide BatchIn, DeclaredBytes;
  }

  lemma BatchAtStart(pre: bytes, b: RecordBatch, rest: bytes, maxBytes: nat)
    requires Made(b)
    ensures BatchAt(pre + (BatchBytes(b) + rest), |pre|, maxBytes)
         == if b.batchBytes <= maxBytes then Ok(b) else Err(InvalidArgument)
  {
    hide BatchAt, BatchIn, DeclaredBytes, BatchBytes, EncodedBatch, Made, FileRead;
    MadeBatchBytes(b);
    DeclaredBytesOf(b, rest);
    var tail := BatchBytes(b) + rest;
    ReadInside(pre, tail, BATCH_HEADER_BYTES);
    ReadInside(pre, tail, b.batchBytes);
    BatchAtDeclared(pre + tail, |pre|, maxBytes, b.batchBytes);
    assert tail[..b.batchBytes] == BatchBytes(b);
  }

  /** Reading at the start of batch i of a file whose whole batches are bs: the result depends on
      the size budget alone. */
  lemma BatchAtPosition(bs: seq<RecordBatch>, tail: bytes, i: nat, maxBytes: nat)
    requires AllMade(bs) && i < |bs|
    ensures BatchAt(FileOf(bs) + tail, Position(bs, i), maxBytes)
         == if bs[i].batchBytes <= maxBytes then Ok(bs[i]) else Err(InvalidArgument)
  {
    hide BatchAt, Made, BatchBytes, FileOf;
    FileOfSplit(bs, i);
    var rest := FileOf(bs[i + 1..]) + tail;
    assert FileOf(bs) + tail == FileOf(bs[..i]) + (BatchBytes(bs[i]) + rest);
    BatchAtStart(FileOf(bs[..i]), bs[i], rest, maxBytes);
  }
}
