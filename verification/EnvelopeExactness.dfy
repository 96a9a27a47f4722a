/** What the decoder of stored envelopes accepts: the envelopes the encoder writes, give or take the two
    fields of the frame inside that nobody reads. */
module EnvelopeExactness {
  import opened Basics
  import opened Endian
  import opened Records
  import opened Protocol
  import opened Wire
  import opened RequestCodec
  import opened Frames
  import opened RetryCodec
  import opened RequestExactness

  lemma Back8(data: bytes)
    ensures Take8(data).Ok? ==> data == Put8(Take8(data).value.value) + Take8(data).value.rest
  {
    hide BigEndian, TakeUInt;
    Pow256Values();
    UIntBack(data, W8);
  }

  lemma MetadataBack(data: bytes)
    ensures TakeMetadata(data).Ok? ==>
      && MetadataFits(TakeMetadata(data).value.value)
      && data == PutMetadata(TakeMetadata(data).value.value) + TakeMetadata(data).value.rest
  {
    hide Take32, Take64, TakeString, Put32, Put64, PutString, Short;
    if TakeMetadata(data).Ok? {
      var count := Take32(data).value;
      var time := Take64(count.rest).value;
      var topic := TakeString(time.rest).value;
      var reason := TakeString(topic.rest).value;
      var partition := Take32(reason.rest).value;
      var offset := Take64(partition.rest).value;
      Back32(data);
      Back64(count.rest);
      StringBack(time.rest);
      StringBack(topic.rest);
      Back32(reason.rest);
      Back64(partition.rest);
      SignedBack(partition.value, offset.value);
    }
  }

  lemma RetryBack(data: bytes)
    ensures TakeRetry(data).Ok? ==>
      var r := TakeRetry(data).value;
      && (r.value.Some? ==> MetadataFits(r.value.value))
      && data == PutRetry(r.value) + r.rest
  {
    hide Take8, Put8, TakeMetadata, PutMetadata, MetadataFits;
    if TakeRetry(data).Ok? {
      var present := Take8(data).value;
      Back8(data);
      if present.value != 0 {
        MetadataBack(present.rest);
      }
    }
  }

  lemma FetchedBack(data: bytes)
    ensures TakeFetched(data, RETRY_PROTOCOL_VERSION).Ok? ==>
      var r := TakeFetched(data, RETRY_PROTOCOL_VERSION).value;
      && FetchedFits(r.value, RETRY_PROTOCOL_VERSION)
      && data == PutFetched(r.value, RETRY_PROTOCOL_VERSION) + r.rest
  {
    hide TakeRecord, TakeRetry, PutRetry, Short, MetadataFits;
    if TakeFetched(data, RETRY_PROTOCOL_VERSION).Ok? {
      var record := TakeRecord(data).value;
      RecordBack(data);
      RetryBack(record.rest);
    }
  }

  lemma {:induction false} FetchedAllBack(data: bytes, count: nat)
    ensures TakeFetchedAll(data, count, RETRY_PROTOCOL_VERSION).Ok? ==>
      var r := TakeFetchedAll(data, count, RETRY_PROTOCOL_VERSION).value;
      && |r.value| == count && data == PutFetchedAll(r.value, RETRY_PROTOCOL_VERSION) + r.rest
      && forall i :: 0 <= i < count ==> FetchedFits(r.value[i], RETRY_PROTOCOL_VERSION)
    decreases count
  {
    hide TakeFetched, PutFetched, FetchedFits;
    if TakeFetchedAll(data, count, RETRY_PROTOCOL_VERSION).Ok? {
      if count == 0 {
        assert [] + data == data;
      } else {
        var first := TakeFetched(data, RETRY_PROTOCOL_VERSION).value;
        FetchedBack(data);
        FetchedAllBack(first.rest, count - 1);
        var others := TakeFetchedAll(first.rest, count - 1, RETRY_PROTOCOL_VERSION).value;
        assert ([first.value] + others.value)[1..] == others.value;
      }
    }
  }

  lemma FetchBack(data: bytes)
    ensures TakeFetch(data, RETRY_PROTOCOL_VERSION).Ok? ==>
      var f := TakeFetch(data, RETRY_PROTOCOL_VERSION).value;
      && data == PutFetch(f.value, RETRY_PROTOCOL_VERSION) + f.rest
      && (f.value.baseOffset >= 0 && f.value.highWatermark >= 0 ==> FetchFits(f.value, RETRY_PROTOCOL_VERSION))
  {
    hide Take32, Put32, Take64, Put64, TakeFetchedAll, PutFetchedAll, FetchedFits;
    if TakeFetch(data, RETRY_PROTOCOL_VERSION).Ok? {
      var base := Take64(data).value;
      var high := Take64(base.rest).value;
      var count := Take32(high.rest).value;
      Back64(data);
      Back64(base.rest);
      Back32(high.rest);
      FetchedAllBack(count.rest, count.value);
      SignedBack(0, base.value);
      SignedBack(0, high.value);
    }
  }

  /** The frame of a successful Fetch response, with any request id and any message. */
  function FetchFrame(requestId: u64, message: bytes, f: FetchResponse): bytes {
    var body := Put16(ErrorNumber(NoError)) + (PutString(message) + PutFetch(f, RETRY_PROTOCOL_VERSION));
    FrameHeader((FRAME_HEADER_BYTES + |body|) % TWO_32, KeyFetch, RETRY_PROTOCOL_VERSION, requestId) + body
  }

  lemma FetchFrameBack(frame: bytes) returns (requestId: u64, message: bytes)
    requires DecodedFetchFrame(frame).Ok?
    requires var d := DecodedFetchFrame(frame).value; d.version == RETRY_PROTOCOL_VERSION && d.error == NoError
    ensures var f := DecodedFetchFrame(frame).value.fetch;
      && frame == FetchFrame(requestId, message, f) && FRAME_HEADER_BYTES <= |frame| <= MAX_FRAME_BYTES
      && (f.baseOffset >= 0 && f.highWatermark >= 0 ==> FetchFits(f, RETRY_PROTOCOL_VERSION))
  {
    hide Take16, Take64, TakeString, TakeFetch, Put16, Put32, Put64, PutString, PutFetch, FetchFits, FrameLength;
    var code := Take16(frame[4..]).value;
    var version := Take16(code.rest).value;
    var id := Take64(version.rest).value;
    var error := Take16(id.rest).value;
    var text := TakeString(error.rest).value;
    requestId, message := id.value, text.value;
    Back16(frame[4..]);
    Back16(code.rest);
    Back64(version.rest);
    Back16(id.rest);
    StringBack(error.rest);
    FetchBack(text.rest);
    LengthBack(frame);
    var f := DecodedFetchFrame(frame).value.fetch;
    assert PutFetch(f, RETRY_PROTOCOL_VERSION) + [] == PutFetch(f, RETRY_PROTOCOL_VERSION);
    var body := Put16(error.value) + (PutString(message) + PutFetch(f, RETRY_PROTOCOL_VERSION));
    Assembled(frame, Put16(code.value), Put16(version.value), Put64(requestId), body);
    assert FRAME_HEADER_BYTES + |body| == FrameLength(frame);
  }

  /** A stored value that decodes is the magic and the frame of a Fetch response with the message for its
      one record, at offset 0 below a high watermark of 1; if the frame also has the request id 0 and no
      message of its own, the record is the very one the encoder makes of the message. */
  lemma EnvelopeExact(stored: Record) returns (requestId: u64, message: bytes)
    requires DecodedRetryRecord(stored).Ok?
    ensures var r := DecodedRetryRecord(stored).value;
      && r.timestamp == stored.timestamp && r.key == stored.key
      && stored.value == ENVELOPE_MAGIC + FetchFrame(requestId, message, FetchResponse(0, 1, [r]))
      && (requestId == 0 && message == [] ==> EncodedRetryRecord(r) == Ok(stored.(crc32 := 0)))
  {
    hide DecodedFetchFrame, FetchFits, FrameHeader, PutFetch, PutString, Put16, IsInternalTopic;
    var frame := stored.value[|ENVELOPE_MAGIC|..];
    requestId, message := FetchFrameBack(frame);
    var r := DecodedRetryRecord(stored).value;
    assert DecodedFetchFrame(frame).value.fetch.records == [r];
    assert DecodedFetchFrame(frame).value.fetch == FetchResponse(0, 1, [r]);
    assert stored.value == stored.value[..|ENVELOPE_MAGIC|] + frame;
  }
}
