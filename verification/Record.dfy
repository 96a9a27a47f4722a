/** A stored record: a fixed little-endian header, then key and value bytes. */
module Records {
  import opened Basics
  import opened Endian
  import opened Checksum

  datatype Record = Record(timestamp: u64, key: bytes, value: bytes, crc32: u32)

  datatype DecodedRecord = DecodedRecord(record: Record, consumed: nat)

  const RECORD_HEADER_BYTES: nat := 20

  function EncodedRecordSize(r: Record): nat {
    RECORD_HEADER_BYTES + |r.key| + |r.value|
  }

  /** What the record checksum covers: everything but the checksum, sizes cast to 32 bits. */
  function ChecksummedBytes(r: Record): bytes {
    LittleEndian(r.timestamp, W64) + LittleEndian(|r.key| % TWO_32, W32) + LittleEndian(|r.value| % TWO_32, W32)
    + r.key + r.value
  }

  function RecordCrc(r: Record): u32 {
    Crc32Of(ChecksummedBytes(r))
  }

  /** A record carrying its own checksum, as MakeRecordBatch leaves it. */
  function Stamped(r: Record): Record {
    r.(crc32 := RecordCrc(r))
  }

  predicate StringsFit(r: Record) {
    |r.key| < TWO_32 && |r.value| < TWO_32
  }

  function RecordHeader(r: Record): (h: bytes)
    ensures |h| == RECORD_HEADER_BYTES
  {
    LittleEndian(r.timestamp, W64) + LittleEndian(|r.key| % TWO_32, W32) + LittleEndian(|r.value| % TWO_32, W32)
    + LittleEndian(RecordCrc(r), W32)
  }

  function EncodedRecord(r: Record): (b: bytes)
    ensures |b| == EncodedRecordSize(r)
  {
    RecordHeader(r) + r.key + r.value
  }

  /** AppendEncodedRecord: sizes are validated before anything is written. */
  method AppendEncodedRecord(r: Record, output: bytes) returns (status: Result<Unit>, result: bytes)
    ensures status == if StringsFit(r) then Ok(Unit) else Err(InvalidArgument)
    ensures result == if StringsFit(r) then output + EncodedRecord(r) else output
  {
    hide Crc32Of, LittleEndian, FromLittleEndian;
    result := output;
    if |r.key| >= TWO_32 {
      return Err(InvalidArgument), result;
    }
    if |r.value| >= TWO_32 {
      return Err(InvalidArgument), result;
    }
    var checked := AppendLittleEndian(r.timestamp, W64, []);
    checked := AppendLittleEndian(|r.key| % TWO_32, W32, checked);
    checked := AppendLittleEndian(|r.value| % TWO_32, W32, checked);
    checked := checked + r.key;
    checked := checked + r.value;
    assert checked == ChecksummedBytes(r);
    var crc := Crc32(checked);

    result := AppendLittleEndian(r.timestamp, W64, result);
    result := AppendLittleEndian(|r.key| % TWO_32, W32, result);
    result := AppendLittleEndian(|r.value| % TWO_32, W32, result);
    result := AppendLittleEndian(crc, W32, result);
    result := result + r.key;
    result := result + r.value;
    assert result == output + EncodedRecord(r);
    status := Ok(Unit);
  }

  /** The record whose header starts data; sizes come from the header. */
  function RecordAt(data: bytes, keySize: nat, valueSize: nat): (r: Record)
    requires RECORD_HEADER_BYTES + keySize + valueSize <= |data|
  {
    LittleEndianBound(data[0..8]);
    LittleEndianBound(data[16..20]);
    Record(FromLittleEndian(data[0..8]),
           data[20..20 + keySize], data[20 + keySize..20 + keySize + valueSize],
           FromLittleEndian(data[16..20]))
  }

  lemma LittleEndianBound(b: bytes)
    ensures |b| == 8 ==> FromLittleEndian(b) < TWO_64
    ensures |b| == 4 ==> FromLittleEndian(b) < TWO_32
  {
    LittleEndianWrite(b);
    Pow256Values();
  }

  /** A 64-bit field. */
  function U64At(data: bytes, at: nat): u64
    requires at + 8 <= |data|
  {
    LittleEndianBound(data[at..at + 8]);
    FromLittleEndian(data[at..at + 8])
  }

  /** A 32-bit field. */
  function U32At(data: bytes, at: nat): u32
    requires at + 4 <= |data|
  {
    LittleEndianBound(data[at..at + 4]);
    FromLittleEndian(data[at..at + 4])
  }

  /** DecodeRecord as a function of its input bytes. */
  function RecordIn(data: bytes): (r: Result<DecodedRecord>)
    ensures r.Ok? ==> RECORD_HEADER_BYTES <= r.value.consumed <= |data|
  {
    if |data| < RECORD_HEADER_BYTES then Err(Corruption)
    else
      var keySize := FromLittleEndian(data[8..12]);
      var valueSize := FromLittleEndian(data[12..16]);
      if keySize + valueSize > |data| - RECORD_HEADER_BYTES then Err(Corruption)
      else
        var r := RecordAt(data, keySize, valueSize);
        if RecordCrc(r) != r.crc32 then Err(Corruption)
        else Ok(DecodedRecord(r, RECORD_HEADER_BYTES + keySize + valueSize))
  }

  method DecodeRecord(data: bytes) returns (r: Result<DecodedRecord>)
    ensures r == RecordIn(data)
  {
    hide Crc32Of, LittleEndian, FromLittleEndian;
    if |data| < RECORD_HEADER_BYTES {
      return Err(Corruption);
    }
    var timestamp := ReadLittleEndian(data, 0, W64);
    var keySize := ReadLittleEndian(data, W64, W32);
    var valueSize := ReadLittleEndian(data, 12, W32);
    var crc := ReadLittleEndian(data, 16, W32);
    LittleEndianBound(data[0..8]);
    LittleEndianBound(data[16..20]);
    var payloadSize := keySize.value + valueSize.value;
    if payloadSize > |data| - RECORD_HEADER_BYTES {
      return Err(Corruption);
    }
    var valueBegin := RECORD_HEADER_BYTES + keySize.value;
    var record := Record(timestamp.value, data[RECORD_HEADER_BYTES..valueBegin],
                         data[valueBegin..valueBegin + valueSize.value], crc.value);
    var checked := AppendLittleEndian(record.timestamp, W64, []);
    checked := AppendLittleEndian(|record.key| % TWO_32, W32, checked);
    checked := AppendLittleEndian(|record.value| % TWO_32, W32, checked);
    checked := checked + record.key + record.value;
    assert checked == ChecksummedBytes(record);
    var computed := Crc32(checked);
    if computed != record.crc32 {
      return Err(Corruption);
    }
    return Ok(DecodedRecord(record, RECORD_HEADER_BYTES + payloadSize));
  }

  /** The four header fields, read back. */
  lemma HeaderFields(r: Record, rest: bytes)
    requires StringsFit(r)
    ensures var data := RecordHeader(r) + rest;
      && FromLittleEndian(data[0..8]) == r.timestamp
      && FromLittleEndian(data[8..12]) == |r.key|
      && FromLittleEndian(data[12..16]) == |r.value|
      && FromLittleEndian(data[16..20]) == RecordCrc(r)
  {
    hide RecordCrc, LittleEndian, FromLittleEndian;
    var a, b, c, d := LittleEndian(r.timestamp, W64), LittleEndian(|r.key|, W32), LittleEndian(|r.value|, W32),
      LittleEndian(RecordCrc(r), W32);
    assert RecordHeader(r) + rest == a + b + c + d + rest;
    FourFields(a, b, c, d, rest);
    Pow256Values();
    LittleEndianRead(r.timestamp, W64);
    LittleEndianRead(|r.key|, W32);
    LittleEndianRead(|r.value|, W32);
    LittleEndianRead(RecordCrc(r), W32);
  }

  lemma FourFields(a: bytes, b: bytes, c: bytes, d: bytes, rest: bytes)
    requires |a| == 8 && |b| == |c| == |d| == 4
    ensures var data := a + b + c + d + rest;
      data[0..8] == a && data[8..12] == b && data[12..16] == c && data[16..20] == d
  {
  }

  /** Decoding undoes encoding, whatever follows the record. */
  lemma RecordRoundTrip(r: Record, rest: bytes)
    requires StringsFit(r)
    ensures RecordIn(EncodedRecord(r) + rest) == Ok(DecodedRecord(Stamped(r), EncodedRecordSize(r)))
  {
    hide Crc32Of, LittleEndian, FromLittleEndian;
    var data := EncodedRecord(r) + rest;
    assert data == RecordHeader(r) + (r.key + r.value + rest);
    HeaderFields(r, r.key + r.value + rest);
    var k := 20 + |r.key|;
    assert data[20..k] == r.key;
    assert data[k..k + |r.value|] == r.value;
    assert ChecksummedBytes(Stamped(r)) == ChecksummedBytes(r);
  }

  /** Whatever DecodeRecord accepts is the encoding of the record it returns. */
  lemma RecordExact(data: bytes)
    ensures RecordIn(data).Ok? ==>
      var d := RecordIn(data).value;
      && StringsFit(d.record)
      && Stamped(d.record) == d.record
      && d.consumed == EncodedRecordSize(d.record) <= |data|
      && EncodedRecord(d.record) == data[..d.consumed]
  {
    hide Crc32Of, LittleEndian, FromLittleEndian;
    if RecordIn(data).Ok? {
      var d := RecordIn(data).value;
      LittleEndianBound(data[8..12]);
      LittleEndianBound(data[12..16]);
      LittleEndianWrite(data[0..8]);
      LittleEndianWrite(data[8..12]);
      LittleEndianWrite(data[12..16]);
      LittleEndianWrite(data[16..20]);
      assert RecordHeader(d.record) == data[0..8] + data[8..12] + data[12..16] + data[16..20] == data[..20];
      assert EncodedRecord(d.record) == data[..20] + d.record.key + d.record.value == data[..d.consumed];
    }
  }
}
