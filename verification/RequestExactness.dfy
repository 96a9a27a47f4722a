/** The request decoder accepts nothing but frames the encoder writes, with one exception. */
module RequestExactness {
  import opened Basics
  import opened Endian
  import opened Protocol
  import opened Wire
  import opened RequestCodec
  import opened Frames

  // ---- Fields ----

  lemma {:induction false} BigEndianWrite(b: bytes)
    ensures BigEndian(FromBigEndian(b), |b|) == b
  {
    if b != [] {
      var front, last := b[..|b| - 1], b[|b| - 1];
      BigEndianWrite(front);
      SplitByte(last, FromBigEndian(front));
    }
  }

  lemma UIntBack(data: bytes, width: nat)
    ensures TakeUInt(data, width).Ok? ==>
      data == BigEndian(TakeUInt(data, width).value.value, width) + TakeUInt(data, width).value.rest
  {
    hide BigEndian, FromBigEndian;
    if |data| >= width {
      BigEndianWrite(data[..width]);
    }
  }

  lemma Back16(data: bytes)
    ensures Take16(data).Ok? ==> data == Put16(Take16(data).value.value) + Take16(data).value.rest
  {
    hide BigEndian, TakeUInt;
    Pow256Values();
    UIntBack(data, W16);
  }

  lemma Back32(data: bytes)
    ensures Take32(data).Ok? ==> data == Put32(Take32(data).value.value) + Take32(data).value.rest
  {
    hide BigEndian, TakeUInt;
    Pow256Values();
    UIntBack(data, W32);
  }

  lemma Back64(data: bytes)
    ensures Take64(data).Ok? ==> data == Put64(Take64(data).value.value) + Take64(data).value.rest
  {
    hide BigEndian, TakeUInt;
    Pow256Values();
    UIntBack(data, W64);
  }

  lemma StringBack(data: bytes)
    ensures TakeString(data).Ok? ==>
      && Short(TakeString(data).value.value)
      && data == PutString(TakeString(data).value.value) + TakeString(data).value.rest
  {
    hide Take32, Put32;
    if TakeString(data).Ok? {
      Back32(data);
      var size := Take32(data).value;
      assert size.rest == TakeString(data).value.value + TakeString(data).value.rest;
    }
  }

  lemma SignedBack(v: u32, w: u64)
    ensures FromI32(ToI32(v)) == v && FromI64(ToI64(w)) == w
  {
  }

  // ---- Records ----

  lemma RecordBack(data: bytes)
    ensures TakeRecord(data).Ok? ==>
      && RecordFits(TakeRecord(data).value.value)
      && data == PutRecord(TakeRecord(data).value.value) + TakeRecord(data).value.rest
  {
    hide Take64, Put64, TakeString, PutString, Short;
    if TakeRecord(data).Ok? {
      var timestamp := Take64(data).value;
      var key := TakeString(timestamp.rest).value;
      Back64(data);
      StringBack(timestamp.rest);
      StringBack(key.rest);
    }
  }

  lemma {:induction false} RecordsBack(data: bytes, count: nat)
    ensures TakeRecords(data, count).Ok? ==>
      var r := TakeRecords(data, count).value;
      && |r.value| == count && data == PutRecords(r.value) + r.rest
      && forall i :: 0 <= i < count ==> RecordFits(r.value[i])
    decreases count
  {
    hide TakeRecord, PutRecord, RecordFits;
    if TakeRecords(data, count).Ok? {
      if count == 0 {
        assert [] + data == data;
      } else {
        var first := TakeRecord(data).value;
        RecordBack(data);
        RecordsBack(first.rest, count - 1);
        assert TakeRecords(data, count).value.value[1..] == TakeRecords(first.rest, count - 1).value.value;
      }
    }
  }

  // ---- Bodies ----

  /** The bytes are those of the body. */
  predicate Exact(key: ApiKey, data: bytes, body: RequestBody) {
    KeyFor(body) == key && PutBody(body) == data && AllShort(Strings(body))
  }

  lemma ProduceExact(data: bytes)
    ensures DecodedProduce(data).Ok? ==>
      Exact(KeyProduce, data, DecodedProduce(data).value) && Encodable(DecodedProduce(data).value)
  {
    hide Take32, Put32, TakeString, PutString, TakeRecords, PutRecords, RecordFits, Short;
    if DecodedProduce(data).Ok? {
      var topic := TakeString(data).value;
      var partition := Take32(topic.rest).value;
      var count := Take32(partition.rest).value;
      StringBack(data);
      Back32(topic.rest);
      Back32(partition.rest);
      RecordsBack(count.rest, count.value);
      SignedBack(partition.value, 0);
      var records := TakeRecords(count.rest, count.value).value;
      assert PutRecords(records.value) + [] == PutRecords(records.value);
    }
  }

  lemma TopicExact(key: ApiKey, data: bytes)
    requires key == KeyFetch || key == KeyMetadata || key == KeyCreateTopic || key == KeyNack
    ensures DecodedBody(key, data).Ok? ==>
      Exact(key, data, DecodedBody(key, data).value) && Encodable(DecodedBody(key, data).value)
  {
    hide Take32, Put32, Take64, Put64, TakeString, PutString, Short;
    if DecodedBody(key, data).Ok? {
      var topic := TakeString(data).value;
      StringBack(data);
      match key
      case KeyMetadata =>
        assert PutString(topic.value) + [] == PutString(topic.value);
      case KeyCreateTopic =>
        Back32(topic.rest);
        NothingBehind32(topic.rest);
      case KeyFetch =>
        var partition := Take32(topic.rest).value;
        var offset := Take64(partition.rest).value;
        Back32(topic.rest);
        Back64(partition.rest);
        NothingBehind32(offset.rest);
        SignedBack(partition.value, offset.value);
      case KeyNack =>
        var partition := Take32(topic.rest).value;
        var offset := Take64(partition.rest).value;
        var reason := TakeString(offset.rest).value;
        Back32(topic.rest);
        Back64(partition.rest);
        StringBack(offset.rest);
        SignedBack(partition.value, offset.value);
        assert PutString(reason.value) + [] == PutString(reason.value);
    }
  }

  lemma NothingBehind32(data: bytes)
    ensures Take32(data).Ok? && Take32(data).value.rest == [] ==> data == Put32(Take32(data).value.value)
  {
    hide Take32, Put32;
    Back32(data);
  }

  lemma NothingBehind64(data: bytes)
    ensures Take64(data).Ok? && Take64(data).value.rest == [] ==> data == Put64(Take64(data).value.value)
  {
    hide Take64, Put64;
    Back64(data);
  }

  lemma GroupExact(key: ApiKey, data: bytes)
    requires key != KeyProduce && key != KeyFetch && key != KeyMetadata && key != KeyCreateTopic && key != KeyNack
    ensures DecodedBody(key, data).Ok? ==>
      var body := DecodedBody(key, data).value;
      Exact(key, data, body) && (Encodable(body) <==> !(body.CommitOffset? && body.offset < 0))
  {
    hide Take32, Put32, Take64, Put64, TakeString, PutString, Short;
    if DecodedBody(key, data).Ok? {
      var group := TakeString(data).value;
      var second := TakeString(group.rest).value;
      StringBack(data);
      StringBack(group.rest);
      match key
      case KeyCommitOffset =>
        var partition := Take32(second.rest).value;
        Back32(second.rest);
        NothingBehind64(partition.rest);
        SignedBack(partition.value, Take64(partition.rest).value.value);
      case KeyFetchCommittedOffset =>
        NothingBehind32(second.rest);
        SignedBack(Take32(second.rest).value.value, 0);
      case KeyJoinGroup =>
        var topic := TakeString(second.rest).value;
        StringBack(second.rest);
        assert PutString(topic.value) + [] == PutString(topic.value);
      case KeySyncGroup =>
        NothingBehind32(second.rest);
      case KeyHeartbeat =>
        NothingBehind32(second.rest);
      case KeyLeaveGroup =>
        assert PutString(second.value) + [] == PutString(second.value);
    }
  }

  lemma BodyExact(key: ApiKey, data: bytes)
    ensures DecodedBody(key, data).Ok? ==>
      var body := DecodedBody(key, data).value;
      Exact(key, data, body) && (Encodable(body) <==> !(body.CommitOffset? && body.offset < 0))
  {
    hide PutBody, Strings, AllShort, Encodable, DecodedProduce, DecodedFetch, DecodedNack, DecodedMetadata,
      DecodedCreateTopic, DecodedCommitOffset, DecodedFetchCommittedOffset, DecodedJoinGroup, DecodedSyncGroup,
      DecodedHeartbeat, DecodedLeaveGroup;
    match key
    case KeyProduce => ProduceExact(data);
    case KeyFetch => TopicExact(key, data);
    case KeyMetadata => TopicExact(key, data);
    case KeyCreateTopic => TopicExact(key, data);
    case KeyNack => TopicExact(key, data);
    case _ => GroupExact(key, data);
  }

  // ---- Frames ----

  /** A frame the decoder accepts is the very frame the encoder writes for the request it decodes to,
      down to the last byte, unless it commits a negative offset: only the decoder lets that pass. */
  lemma RequestExact(frame: bytes)
    ensures DecodedRequest(frame).Ok? ==>
      var q := DecodedRequest(frame).value;
      EncodedRequest(q) ==
        if q.body.CommitOffset? && q.body.offset < 0 then Err(InvalidArgument) else Ok(frame)
  {
    hide Take16, Take64, Put16, Put32, Put64, PutBody, DecodedBody, Encodable, AllShort, FrameLength, KeyOf, KeyCode;
    if DecodedRequest(frame).Ok? {
      var code := Take16(frame[4..]).value;
      var version := Take16(code.rest).value;
      var requestId := Take64(version.rest).value;
      LengthBack(frame);
      Back16(frame[4..]);
      Back16(code.rest);
      Back64(version.rest);
      BodyExact(KeyOf(code.value).value, requestId.rest);
      var body := DecodedRequest(frame).value.body;
      Assembled(frame, Put16(code.value), Put16(version.value), Put64(requestId.value), PutBody(body));
      assert FRAME_HEADER_BYTES + |PutBody(body)| == FrameLength(frame);
    }
  }

  /** Such a frame: a commit of any negative offset decodes, and cannot be encoded. */
  lemma NegativeCommitDecodes(group: bytes, topic: bytes, partition: i32, offset: i64, requestId: u64)
    requires Short(group) && Short(topic) && offset < 0
    requires |PutBody(CommitOffset(group, topic, partition, offset))| <= MAX_FRAME_BYTES - FRAME_HEADER_BYTES
    ensures var q := Request(KeyCommitOffset, PROTOCOL_VERSION, requestId,
                             CommitOffset(group, topic, partition, offset));
      var body := PutBody(q.body);
      && DecodedRequest(FrameHeader(FRAME_HEADER_BYTES + |body|, q.apiKey, q.version, requestId) + body) == Ok(q)
      && EncodedRequest(q) == Err(InvalidArgument)
  {
    hide Take16, Take64, Put16, Put32, Put64, PutBody, DecodedBody, FrameLength;
    var body := PutBody(CommitOffset(group, topic, partition, offset));
    var tail := Put16(KeyCode(KeyCommitOffset)) + (Put16(PROTOCOL_VERSION) + (Put64(requestId) + body));
    var frame := FrameHeader(FRAME_HEADER_BYTES + |body|, KeyCommitOffset, PROTOCOL_VERSION, requestId) + body;
    assert frame == Put32(FRAME_HEADER_BYTES + |body|) + tail;
    assert frame[4..] == tail;
    FrameLengthOf(FRAME_HEADER_BYTES + |body|, tail);
    HeaderRoundTrip(KeyCommitOffset, PROTOCOL_VERSION, requestId, body);
    CommitBodyDecodes(group, topic, partition, offset);
  }

  lemma CommitBodyDecodes(group: bytes, topic: bytes, partition: i32, offset: i64)
    requires Short(group) && Short(topic)
    ensures var body := CommitOffset(group, topic, partition, offset);
      DecodedBody(KeyCommitOffset, PutBody(body)) == Ok(body)
  {
    hide Take32, Take64, TakeString, Put32, Put64, PutString, Short;
    TwoStrings(group, topic, Put32(FromI32(partition)) + Put64(FromI64(offset)));
    Take32Put(FromI32(partition), Put64(FromI64(offset)));
    Take64Last(FromI64(offset));
  }

  lemma Assembled(frame: bytes, a: bytes, b: bytes, c: bytes, body: bytes)
    requires |frame| >= 4 && frame[4..] == a + (b + (c + body))
    ensures frame == (frame[..4] + (a + (b + c))) + body
  {
    assert frame == frame[..4] + frame[4..];
  }

  lemma LengthBack(frame: bytes)
    requires |frame| >= 4
    ensures Put32(FrameLength(frame)) == frame[..4]
  {
    hide BigEndian, FromBigEndian;
    BigEndianWrite(frame[..4]);
  }
}
