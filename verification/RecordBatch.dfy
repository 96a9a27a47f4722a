/** A batch of records on disk: magic, base offset, count, total size, payload checksum, payload. */
module RecordBatches {
  import opened Basics
  import opened Endian
  import opened Checksum
  import opened CrcBursts
  import opened Records

  datatype RecordBatch = RecordBatch(
    baseOffset: i64, recordCount: u64, batchBytes: u64, batchCrc32: u32, records: seq<Record>)

  const MAGIC: u32 := 0x4C4D5142
  const BATCH_HEADER_BYTES: nat := 32

  /** The largest size a vector of bytes can have; asking for more throws. */
  const VECTOR_MAX: nat := 0x7FFF_FFFF_FFFF_FFFF

  // ---- Encoding ----

  function PayloadSize(records: seq<Record>): nat {
    if records == [] then 0 else EncodedRecordSize(records[0]) + PayloadSize(records[1..])
  }

  function Payload(records: seq<Record>): (p: bytes)
    ensures |p| == PayloadSize(records)
  {
    if records == [] then [] else EncodedRecord(records[0]) + Payload(records[1..])
  }

  predicate AllFit(records: seq<Record>) {
    forall i :: 0 <= i < |records| ==> StringsFit(records[i])
  }

  /** Which of EncodeRecordsPayload's checks fails first, if any. */
  function EncodedPayload(records: seq<Record>): (r: Result<bytes>)
    ensures r.Ok? ==> |r.value| <= VECTOR_MAX
  {
    if PayloadSize(records) >= TWO_64 then Err(InvalidArgument)
    else if PayloadSize(records) > VECTOR_MAX then Err(LengthError)
    else if !AllFit(records) then Err(InvalidArgument)
    else Ok(Payload(records))
  }

  /** The first loop of EncodeRecordsPayload: add up the sizes, watching for overflow. */
  method MeasurePayload(records: seq<Record>) returns (r: Result<nat>)
    ensures r == if PayloadSize(records) >= TWO_64 then Err(InvalidArgument) else Ok(PayloadSize(records))
  {
    hide EncodedRecordSize;
    var total: nat := 0;
    for i := 0 to |records|
      invariant total + PayloadSize(records[i..]) == PayloadSize(records)
      invariant total < TWO_64
    {
      assert records[i..][1..] == records[i + 1..];
      var recordBytes := EncodedRecordSize(records[i]);
      if recordBytes > TWO_64 - 1 - total {
        return Err(InvalidArgument);
      }
      total := total + recordBytes;
    }
    return Ok(total);
  }

  method EncodeRecordsPayload(records: seq<Record>) returns (r: Result<bytes>)
    ensures r == EncodedPayload(records)
  {
    hide StringsFit, EncodedRecord, PayloadSize;
    var total := MeasurePayload(records);
    if total.Err? {
      return Err(total.error);
    }
    if total.value > VECTOR_MAX {
      return Err(LengthError);
    }
    var payload: bytes := [];
    for i := 0 to |records|
      invariant forall j :: 0 <= j < i ==> StringsFit(records[j])
      invariant payload + Payload(records[i..]) == Payload(records)
    {
      PayloadFrom(records, i, payload);
      var status, appended := AppendEncodedRecord(records[i], payload);
      if status.Err? {
        assert !AllFit(records);
        return Err(status.error);
      }
      payload := appended;
    }
    assert records[|records|..] == [] && payload + [] == payload;
    assert AllFit(records);
    return Ok(payload);
  }

  lemma PayloadFrom(records: seq<Record>, i: nat, before: bytes)
    requires i < |records|
    ensures before + Payload(records[i..]) == (before + EncodedRecord(records[i])) + Payload(records[i + 1..])
  {
    hide EncodedRecord;
    assert records[i..][1..] == records[i + 1..];
  }

  function StampedAll(records: seq<Record>): (s: seq<Record>)
    ensures |s| == |records|
    ensures forall i :: 0 <= i < |s| ==> s[i] == Stamped(records[i])
  {
    seq(|records|, i requires 0 <= i < |records| => Stamped(records[i]))
  }

  function BatchOf(base: i64, records: seq<Record>, payload: bytes): RecordBatch
    requires |records| < TWO_64 && |payload| <= VECTOR_MAX
  {
    RecordBatch(base, |records|, BATCH_HEADER_BYTES + |payload|, Crc32Of(payload), StampedAll(records))
  }

  function MadeBatch(base: i64, records: seq<Record>): Result<RecordBatch> {
    if base < 0 || records == [] then Err(InvalidArgument)
    else
      var payload :- EncodedPayload(records);
      PayloadHoldsRecords(records);
      Ok(BatchOf(base, records, payload))
  }

  lemma {:induction false} PayloadHoldsRecords(records: seq<Record>)
    ensures RECORD_HEADER_BYTES * |records| <= PayloadSize(records)
  {
    if records != [] { PayloadHoldsRecords(records[1..]); }
  }

  lemma {:induction false} StampingKeepsEncoding(records: seq<Record>)
    ensures PayloadSize(StampedAll(records)) == PayloadSize(records)
    ensures Payload(StampedAll(records)) == Payload(records)
    ensures AllFit(StampedAll(records)) == AllFit(records)
  {
    hide Crc32Of, LittleEndian;
    if records != [] {
      StampingKeepsEncoding(records[1..]);
      assert StampedAll(records)[1..] == StampedAll(records[1..]);
      assert ChecksummedBytes(Stamped(records[0])) == ChecksummedBytes(records[0]);
      assert EncodedRecord(Stamped(records[0])) == EncodedRecord(records[0]);
      var s := StampedAll(records);
      assert forall i :: 0 <= i < |s| ==> StringsFit(s[i]) == StringsFit(records[i]);
    }
  }

  method StampRecords(records: seq<Record>) returns (stamped: seq<Record>)
    ensures stamped == StampedAll(records)
  {
    hide StampedAll, RecordCrc;
    stamped := [];
    for i := 0 to |records|
      invariant |stamped| == i
      invariant forall j :: 0 <= j < i ==> stamped[j] == StampedAll(records)[j]
    {
      stamped := stamped + [Stamped(records[i])];
    }
  }

  method MakeRecordBatch(base: i64, records: seq<Record>) returns (r: Result<RecordBatch>)
    ensures r == MadeBatch(base, records)
  {
    hide Crc32Of, LittleEndian;
    if base < 0 {
      return Err(InvalidArgument);
    }
    if records == [] {
      return Err(InvalidArgument);
    }
    var stamped := StampRecords(records);
    var payload := EncodeRecordsPayload(stamped);
    StampingKeepsEncoding(records);
    if payload.Err? {
      return Err(payload.error);
    }
    PayloadHoldsRecords(records);
    var crc := Crc32(payload.value);
    return Ok(RecordBatch(base, |stamped|, BATCH_HEADER_BYTES + |payload.value|, crc, stamped));
  }

  function BatchHeader(base: i64, count: nat, size: nat, crc: u32): (h: bytes)
    ensures |h| == BATCH_HEADER_BYTES
  {
    LittleEndian(MAGIC, W32) + LittleEndian(FromI64(base), W64) + LittleEndian(count, W64)
    + LittleEndian(size, W64) + LittleEndian(crc, W32)
  }

  /** The bytes of a batch; like the code, it looks only at the base offset and the records. */
  function EncodedBatch(b: RecordBatch): Result<bytes> {
    if b.baseOffset < 0 || b.records == [] then Err(InvalidArgument)
    else
      var payload :- EncodedPayload(b.records);
      Ok(BatchHeader(b.baseOffset, |b.records|, BATCH_HEADER_BYTES + |payload|, Crc32Of(payload)) + payload)
  }

  method EncodeRecordBatch(b: RecordBatch) returns (r: Result<bytes>)
    ensures r == EncodedBatch(b)
  {
    hide Crc32Of, LittleEndian;
    if b.baseOffset < 0 {
      return Err(InvalidArgument);
    }
    if b.records == [] {
      return Err(InvalidArgument);
    }
    var payload := EncodeRecordsPayload(b.records);
    if payload.Err? {
      return payload;
    }
    var crc := Crc32(payload.value);
    var output := AppendLittleEndian(MAGIC, W32, []);
    output := AppendLittleEndian(FromI64(b.baseOffset), W64, output);
    output := AppendLittleEndian(|b.records|, W64, output);
    output := AppendLittleEndian(BATCH_HEADER_BYTES + |payload.value|, W64, output);
    output := AppendLittleEndian(crc, W32, output);
    assert output == BatchHeader(b.baseOffset, |b.records|, BATCH_HEADER_BYTES + |payload.value|, crc);
    return Ok(output + payload.value);
  }

  // ---- Decoding ----

  /** PeekRecordBatchBytes: the declared total size of the batch whose header starts data. */
  function DeclaredBytes(data: bytes): (r: Result<u64>)
    ensures r.Ok? ==> r.value >= BATCH_HEADER_BYTES
  {
    if |data| < BATCH_HEADER_BYTES then Err(Corruption)
    else if FromLittleEndian(data[0..4]) != MAGIC then Err(Corruption)
    else
      LittleEndianBound(data[20..28]);
      var size := FromLittleEndian(data[20..28]);
      if size < BATCH_HEADER_BYTES then Err(Corruption) else Ok(size)
  }

  /** Only the header matters to the declared size. */
  lemma DeclaredByHeader(data: bytes)
    requires |data| >= BATCH_HEADER_BYTES
    ensures DeclaredBytes(data) == DeclaredBytes(data[..BATCH_HEADER_BYTES])
  {
    hide FromLittleEndian;
    var header := data[..BATCH_HEADER_BYTES];
    assert header[0..4] == data[0..4] && header[20..28] == data[20..28];
  }

  method PeekRecordBatchBytes(data: bytes) returns (r: Result<u64>)
    ensures r == DeclaredBytes(data)
  {
    hide LittleEndian, FromLittleEndian;
    if |data| < BATCH_HEADER_BYTES {
      return Err(Corruption);
    }
    var magic := ReadLittleEndian(data, 0, W32);
    if magic.value != MAGIC {
      return Err(Corruption);
    }
    var size := ReadLittleEndian(data, 20, W64);
    LittleEndianBound(data[20..28]);
    if size.value < BATCH_HEADER_BYTES {
      return Err(Corruption);
    }
    return Ok(size.value);
  }

  datatype DecodedRecords = DecodedRecords(records: seq<Record>, consumed: nat)

  /** count records decoded one after another. */
  function RecordsIn(payload: bytes, count: nat): (r: Result<DecodedRecords>)
    ensures r.Ok? ==> r.value.consumed <= |payload|
  {
    if count == 0 then Ok(DecodedRecords([], 0))
    else
      var first :- RecordIn(payload);
      var rest :- RecordsIn(payload[first.consumed..], count - 1);
      Ok(DecodedRecords([first.record] + rest.records, first.consumed + rest.consumed))
  }

  /** DecodeRecordBatch as a function of its input bytes. */
  function BatchIn(data: bytes): (r: Result<RecordBatch>)
    ensures r.Ok? ==> DeclaredBytes(data) == Ok(r.value.batchBytes)
  {
    var size :- DeclaredBytes(data);
    if size > |data| then Err(Corruption)
    else
      var payload := data[BATCH_HEADER_BYTES..size];
      var count := U64At(data, 12);
      if Crc32Of(payload) != U32At(data, 28) then Err(Corruption)
      else if count == 0 then Err(Corruption)
      else if count > |payload| / RECORD_HEADER_BYTES then Err(Corruption)
      else
        var decoded :- RecordsIn(payload, count);
        if decoded.consumed != |payload| then Err(Corruption)
        else Ok(RecordBatch(ToI64(U64At(data, 4)), count, size, U32At(data, 28), decoded.records))
  }

  /** What is left to decode after one more record, and how it joins what is decoded already. */
  lemma RecordsFrom(payload: bytes, consumed: nat, count: nat, before: seq<Record>)
    requires consumed <= |payload| && count > 0 && RecordIn(payload[consumed..]).Ok?
    ensures var d := RecordIn(payload[consumed..]).value;
      consumed + d.consumed <= |payload| &&
      var rest, all := RecordsIn(payload[consumed + d.consumed..], count - 1), RecordsIn(payload[consumed..], count);
      if rest.Err? then all == rest
      else
        && all.Ok? && all.value.consumed == d.consumed + rest.value.consumed
        && before + all.value.records == (before + [d.record]) + rest.value.records
  {
    hide RecordIn;
    var d := RecordIn(payload[consumed..]).value;
    assert payload[consumed..][d.consumed..] == payload[consumed + d.consumed..];
  }

  method DecodeRecords(payload: bytes, count: nat) returns (r: Result<DecodedRecords>)
    ensures r == RecordsIn(payload, count)
  {
    hide RecordIn;
    var records := [];
    var consumed: nat := 0;
    ghost var whole := RecordsIn(payload, count);
    assert payload[0..] == payload;
    for i := 0 to count
      invariant consumed <= |payload|
      invariant var rest := RecordsIn(payload[consumed..], count - i);
        if rest.Err? then whole == rest
        else whole.Ok? && whole.value.records == records + rest.value.records
                       && whole.value.consumed == consumed + rest.value.consumed
    {
      var decoded := DecodeRecord(payload[consumed..]);
      if decoded.Err? {
        return Err(decoded.error);
      }
      RecordsFrom(payload, consumed, count - i, records);
      consumed := consumed + decoded.value.consumed;
      records := records + [decoded.value.record];
    }
    assert records + [] == records;
    return Ok(DecodedRecords(records, consumed));
  }

  method DecodeRecordBatch(data: bytes) returns (r: Result<RecordBatch>)
    ensures r == BatchIn(data)
  {
    hide Crc32Of, LittleEndian, FromLittleEndian, RecordsIn;
    var size := PeekRecordBatchBytes(data);
    if size.Err? {
      return Err(size.error);
    }
    if size.value > |data| {
      return Err(Corruption);
    }
    var base := ReadLittleEndian(data, 4, W64);
    var count := ReadLittleEndian(data, 12, W64);
    var storedCrc := ReadLittleEndian(data, 28, W32);
    LittleEndianBound(data[4..12]);
    LittleEndianBound(data[12..20]);
    LittleEndianBound(data[28..32]);
    var payload := data[BATCH_HEADER_BYTES..size.value];
    var crc := Crc32(payload);
    if crc != storedCrc.value {
      return Err(Corruption);
    }
    if count.value == 0 {
      return Err(Corruption);
    }
    if count.value > |payload| / RECORD_HEADER_BYTES {
      return Err(Corruption);
    }
    var decoded := DecodeRecords(payload, count.value);
    if decoded.Err? {
      return Err(decoded.error);
    }
    if decoded.value.consumed != |payload| {
      return Err(Corruption);
    }
    return Ok(RecordBatch(ToI64(base.value), count.value, size.value, storedCrc.value, decoded.value.records));
  }

  // ---- Encoding and decoding are inverse ----

  lemma BatchHeaderFields(base: i64, count: u64, size: u64, crc: u32, rest: bytes)
    ensures var data := BatchHeader(base, count, size, crc) + rest;
      && FromLittleEndian(data[0..4]) == MAGIC
      && FromLittleEndian(data[4..12]) == FromI64(base)
      && FromLittleEndian(data[12..20]) == count
      && FromLittleEndian(data[20..28]) == size
      && FromLittleEndian(data[28..32]) == crc
  {
    hide LittleEndian, FromLittleEndian;
    var data := BatchHeader(base, count, size, crc) + rest;
    assert data[0..4] == LittleEndian(MAGIC, W32);
    assert data[4..12] == LittleEndian(FromI64(base), W64);
    assert data[12..20] == LittleEndian(count, W64);
    assert data[20..28] == LittleEndian(size, W64);
    assert data[28..32] == LittleEndian(crc, W32);
    Pow256Values();
    LittleEndianRead(MAGIC, W32);
    LittleEndianRead(FromI64(base), W64);
    LittleEndianRead(count, W64);
    LittleEndianRead(size, W64);
    LittleEndianRead(crc, W32);
  }

  lemma StampedNext(records: seq<Record>)
    requires records != []
    ensures StampedAll(records) == [Stamped(records[0])] + StampedAll(records[1..])
  {
    hide Stamped;
  }

  lemma {:induction false} RecordsRoundTrip(records: seq<Record>, rest: bytes)
    requires AllFit(records)
    ensures RecordsIn(Payload(records) + rest, |records|)
         == Ok(DecodedRecords(StampedAll(records), PayloadSize(records)))
  {
    hide RecordIn, EncodedRecord, Stamped, StampedAll, StringsFit;
    if records != [] {
      var data := Payload(records) + rest;
      var tail := Payload(records[1..]) + rest;
      assert data == EncodedRecord(records[0]) + tail;
      RecordRoundTrip(records[0], tail);
      assert data[EncodedRecordSize(records[0])..] == tail;
      RecordsRoundTrip(records[1..], rest);
      StampedNext(records);
    } else {
      assert StampedAll(records) == [];
    }
  }

  /** Decoding the bytes of a made batch, whatever follows them, gives the batch back. */
  lemma BatchRoundTrip(base: i64, records: seq<Record>, rest: bytes)
    ensures MadeBatch(base, records).Ok? ==>
      var b := MadeBatch(base, records).value;
      && EncodedBatch(b).Ok?
      && |EncodedBatch(b).value| == b.batchBytes
      && BatchIn(EncodedBatch(b).value + rest) == Ok(b)
  {
    hide Crc32Of, LittleEndian, FromLittleEndian, RecordsIn, Payload, PayloadSize;
    if MadeBatch(base, records).Ok? {
      var b := MadeBatch(base, records).value;
      var payload := Payload(records);
      StampingKeepsEncoding(records);
      PayloadHoldsRecords(records);
      var header := BatchHeader(base, |records|, b.batchBytes, b.batchCrc32);
      var data := EncodedBatch(b).value + rest;
      assert data == header + (payload + rest);
      BatchHeaderFields(base, |records|, b.batchBytes, b.batchCrc32, payload + rest);
      assert data[BATCH_HEADER_BYTES..b.batchBytes] == payload == payload + [];
      RecordsRoundTrip(records, []);
    }
  }

  lemma {:induction false} RecordsExact(payload: bytes, count: nat)
    ensures RecordsIn(payload, count).Ok? ==>
      var d := RecordsIn(payload, count).value;
      && |d.records| == count
      && AllFit(d.records)
      && StampedAll(d.records) == d.records
      && d.consumed == PayloadSize(d.records) <= |payload|
      && Payload(d.records) == payload[..d.consumed]
  {
    hide RecordIn, EncodedRecord, Stamped;
    if count != 0 && RecordsIn(payload, count).Ok? {
      RecordExact(payload);
      var first := RecordIn(payload).value;
      var tail := payload[first.consumed..];
      RecordsExact(tail, count - 1);
      var rest := RecordsIn(tail, count - 1).value;
      var d := RecordsIn(payload, count).value;
      assert d.records[1..] == rest.records;
      assert payload[..d.consumed] == payload[..first.consumed] + tail[..rest.consumed];
    }
  }

  lemma HeaderExact(data: bytes)
    requires |data| >= BATCH_HEADER_BYTES
    requires FromLittleEndian(data[0..4]) == MAGIC
    ensures FromLittleEndian(data[4..12]) < TWO_64 && FromLittleEndian(data[12..20]) < TWO_64
    ensures FromLittleEndian(data[20..28]) < TWO_64 && FromLittleEndian(data[28..32]) < TWO_32
    ensures data[..32] == BatchHeader(ToI64(FromLittleEndian(data[4..12])), FromLittleEndian(data[12..20]),
                                      FromLittleEndian(data[20..28]), FromLittleEndian(data[28..32]))
  {
    hide LittleEndian, FromLittleEndian;
    LittleEndianBound(data[4..12]);
    LittleEndianBound(data[12..20]);
    LittleEndianBound(data[20..28]);
    LittleEndianBound(data[28..32]);
    LittleEndianWrite(data[0..4]);
    LittleEndianWrite(data[4..12]);
    LittleEndianWrite(data[12..20]);
    LittleEndianWrite(data[20..28]);
    LittleEndianWrite(data[28..32]);
    assert data[..32] == data[0..4] + data[4..12] + data[12..20] + data[20..28] + data[28..32];
  }

  /** Accepted bytes with a non-negative base offset are exactly the encoding of what was decoded. */
  lemma BatchExact(data: bytes)
    ensures |data| <= VECTOR_MAX && BatchIn(data).Ok? && BatchIn(data).value.baseOffset >= 0 ==>
      var b := BatchIn(data).value;
      && MadeBatch(b.baseOffset, b.records) == Ok(b)
      && EncodedBatch(b) == Ok(data[..b.batchBytes])
  {
    hide Crc32Of, LittleEndian, FromLittleEndian, RecordsIn, Payload, PayloadSize;
    if |data| <= VECTOR_MAX && BatchIn(data).Ok? && BatchIn(data).value.baseOffset >= 0 {
      var b := BatchIn(data).value;
      var payload := data[BATCH_HEADER_BYTES..b.batchBytes];
      RecordsExact(payload, b.recordCount);
      assert payload[..|payload|] == payload;
      HeaderExact(data);
      assert data[..b.batchBytes] == data[..32] + payload;
    }
  }

  /** A byte string starts with at most one batch, so concatenated batches parse in one way only. */
  lemma BatchSelfDelimiting(b: RecordBatch, c: RecordBatch, s: bytes, t: bytes)
    requires MadeBatch(b.baseOffset, b.records) == Ok(b)
    requires MadeBatch(c.baseOffset, c.records) == Ok(c)
    requires EncodedBatch(b).Ok? && EncodedBatch(c).Ok?
    requires EncodedBatch(b).value + s == EncodedBatch(c).value + t
    ensures b == c && s == t
  {
    hide MadeBatch, EncodedBatch, BatchIn;
    BatchRoundTrip(b.baseOffset, b.records, s);
    BatchRoundTrip(c.baseOffset, c.records, t);
    var x := EncodedBatch(b).value;
    assert s == (x + s)[|x|..] && t == (x + t)[|x|..];
  }

  /** Damage to the payload of an encoded batch that fits in 32 consecutive bits is always rejected. */
  lemma DamagedBatchRejected(base: i64, records: seq<Record>, damaged: bytes, first: nat, rest: bytes)
    requires MadeBatch(base, records).Ok?
    requires |damaged| == |Payload(records)| && damaged != Payload(records)
    requires IsBurst(Payload(records), damaged, first)
    ensures var b := MadeBatch(base, records).value;
      EncodedBatch(b).Ok? && BatchIn(EncodedBatch(b).value[..BATCH_HEADER_BYTES] + damaged + rest) == Err(Corruption)
  {
    hide Crc32Of, LittleEndian, FromLittleEndian, RecordsIn, Payload, PayloadSize, IsBurst;
    var b := MadeBatch(base, records).value;
    StampingKeepsEncoding(records);
    PayloadHoldsRecords(records);
    var header := BatchHeader(base, |records|, b.batchBytes, b.batchCrc32);
    assert EncodedBatch(b).value[..BATCH_HEADER_BYTES] == header;
    var data := header + damaged + rest;
    assert data == header + (damaged + rest);
    BatchHeaderFields(base, |records|, b.batchBytes, b.batchCrc32, damaged + rest);
    assert data[BATCH_HEADER_BYTES..b.batchBytes] == damaged;
    BurstDetected(Payload(records), damaged, first);
  }
}
