/** Where each field is: the bytes of stored records and batches and of request frames, read by hand. */
module Layout {
  import opened Basics
  import opened Endian
  import opened Checksum
  import opened Records
  import opened RecordBatches
  import opened Protocol
  import opened Wire
  import opened RequestCodec
  import opened Frames

  /** A stored record: timestamp, key size, value size, and a checksum of all its other bytes, little
      end first; then the key and the value. */
  lemma RecordLayout(r: Record)
    requires StringsFit(r)
    ensures var b := EncodedRecord(r);
      && |b| == 20 + |r.key| + |r.value|
      && FromLittleEndian(b[0..8]) == r.timestamp
      && FromLittleEndian(b[8..12]) == |r.key|
      && FromLittleEndian(b[12..16]) == |r.value|
      && FromLittleEndian(b[16..20]) == Crc32Of(b[..16] + b[20..])
      && b[20..20 + |r.key|] == r.key && b[20 + |r.key|..] == r.value
  {
    hide Crc32Of, LittleEndian, FromLittleEndian;
    var b := EncodedRecord(r);
    assert b == RecordHeader(r) + (r.key + r.value);
    HeaderFields(r, r.key + r.value);
    assert b[..16] + b[20..] == ChecksummedBytes(r);
  }

  /** A stored batch: magic, base offset, record count, its own size and the checksum of its payload,
      little end first; then the records, the first of them at byte 32. */
  lemma BatchLayout(b: RecordBatch)
    requires EncodedBatch(b).Ok?
    ensures var data := EncodedBatch(b).value;
      && |data| >= 32 && b.records != []
      && FromLittleEndian(data[0..4]) == 0x4C4D5142
      && FromLittleEndian(data[4..12]) == b.baseOffset
      && FromLittleEndian(data[12..20]) == |b.records|
      && FromLittleEndian(data[20..28]) == |data|
      && FromLittleEndian(data[28..32]) == Crc32Of(data[32..])
      && EncodedRecord(b.records[0]) <= data[32..]
  {
    hide Crc32Of, LittleEndian, FromLittleEndian, EncodedRecord, AllFit;
    var data, payload := EncodedBatch(b).value, EncodedPayload(b.records).value;
    PayloadHoldsRecords(b.records);
    assert data[32..] == payload;
    BatchHeaderFields(b.baseOffset, |b.records|, 32 + |payload|, Crc32Of(payload), payload);
  }

  /** A request frame: its own size, the number of its kind, the version and the request id, big end
      first; then the body. */
  lemma FrameLayout(q: Request)
    requires EncodedRequest(q).Ok?
    ensures var frame := EncodedRequest(q).value;
      && 16 <= |frame|
      && FromBigEndian(frame[0..4]) == |frame|
      && FromBigEndian(frame[4..6]) == KeyNumber(q.body)
      && FromBigEndian(frame[6..8]) == q.version
      && FromBigEndian(frame[8..16]) == q.requestId
      && frame[16..] == PutBody(q.body)
  {
    hide BigEndian, FromBigEndian, PutBody, Encodable, AllShort;
    var frame, body := EncodedRequest(q).value, PutBody(q.body);
    FrameFields(Put32(16 + |body|), Put16(KeyCode(q.apiKey)), Put16(q.version), Put64(q.requestId), body);
    Pow256Values();
    BigEndianRead(16 + |body|, W32);
    BigEndianRead(KeyCode(q.apiKey), W16);
    BigEndianRead(q.version, W16);
    BigEndianRead(q.requestId, W64);
  }

  /** The numbers of the kinds of requests. */
  function KeyNumber(body: RequestBody): nat {
    if body.Produce? then 1
    else if body.Fetch? then 2
    else if body.Metadata? then 3
    else if body.CreateTopic? then 4
    else if body.CommitOffset? then 5
    else if body.FetchCommittedOffset? then 6
    else if body.JoinGroup? then 7
    else if body.SyncGroup? then 8
    else if body.Heartbeat? then 9
    else if body.LeaveGroup? then 10
    else 11
  }

  lemma FrameFields(a: bytes, b: bytes, c: bytes, d: bytes, body: bytes)
    requires |a| == 4 && |b| == |c| == 2 && |d| == 8
    ensures var frame := (a + (b + (c + d))) + body;
      frame[0..4] == a && frame[4..6] == b && frame[6..8] == c && frame[8..16] == d && frame[16..] == body
  {
  }
}
