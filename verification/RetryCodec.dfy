/** Retry metadata on the wire, the version-2 Fetch response, and the envelope a retried record is
    stored in. */
module RetryCodec {
  import opened Basics
  import opened Records
  import opened Protocol
  import opened Wire
  import opened RequestCodec
  import opened Frames

  // ---- Topic names ----

  /** "%RETRY%" */
  const RETRY_PREFIX: bytes := [37, 82, 69, 84, 82, 89, 37]
  /** "%DLQ%" */
  const DLQ_PREFIX: bytes := [37, 68, 76, 81, 37]

  predicate StartsWith(s: bytes, prefix: bytes) {
    |prefix| <= |s| && s[..|prefix|] == prefix
  }

  predicate IsRetryTopic(topic: bytes) { StartsWith(topic, RETRY_PREFIX) }
  predicate IsDlqTopic(topic: bytes) { StartsWith(topic, DLQ_PREFIX) }
  predicate IsInternalTopic(topic: bytes) { IsRetryTopic(topic) || IsDlqTopic(topic) }

  // ---- Retry metadata ----

  /** What AppendRetryMetadata insists on. */
  predicate MetadataFits(m: RetryMetadata) {
    && m.retryCount != 0 && m.originalTopic != [] && m.originalPartition >= 0 && m.originalOffset >= 0
    && Short(m.originalTopic) && Short(m.failureReason)
  }

  function PutMetadata(m: RetryMetadata): bytes {
    Put32(m.retryCount) + (Put64(m.nextVisibleTime) + (PutString(m.originalTopic) + (PutString(m.failureReason)
    + (Put32(FromI32(m.originalPartition)) + Put64(FromI64(m.originalOffset))))))
  }

  /** DecodeRetryMetadata. */
  function TakeMetadata(data: bytes): Result<Parsed<RetryMetadata>> {
    var count :- Take32(data);
    var time :- Take64(count.rest);
    var topic :- TakeString(time.rest);
    var reason :- TakeString(topic.rest);
    var partition :- Take32(reason.rest);
    var offset :- Take64(partition.rest);
    if count.value == 0 || topic.value == [] || ToI32(partition.value) < 0 || offset.value >= TWO_63
    then Err(InvalidArgument)
    else Ok(Parsed(RetryMetadata(count.value, time.value, topic.value, reason.value,
                                 ToI32(partition.value), offset.value), offset.rest))
  }

  lemma TakeMetadataPut(m: RetryMetadata, rest: bytes)
    requires MetadataFits(m)
    ensures TakeMetadata(PutMetadata(m) + rest) == Ok(Parsed(m, rest))
  {
    hide Take32, Take64, TakeString, Put32, Put64, PutString;
    var e := Put64(FromI64(m.originalOffset)) + rest;
    var d := Put32(FromI32(m.originalPartition)) + e;
    var c := PutString(m.failureReason) + d;
    var b := PutString(m.originalTopic) + c;
    var a := Put64(m.nextVisibleTime) + b;
    assert PutMetadata(m) + rest == Put32(m.retryCount) + a;
    Take32Put(m.retryCount, a);
    Take64Put(m.nextVisibleTime, b);
    TakeStringPut(m.originalTopic, c);
    TakeStringPut(m.failureReason, d);
    Take32Put(FromI32(m.originalPartition), e);
    Take64Put(FromI64(m.originalOffset), rest);
  }

  // ---- The Fetch response ----

  function PutRetry(retry: Option<RetryMetadata>): bytes {
    match retry
    case None => Put8(0)
    case Some(m) => Put8(1) + PutMetadata(m)
  }

  /** One record of a Fetch response; only version 2 carries the retry metadata. */
  function PutFetched(r: ProtocolRecord, version: u16): (b: bytes)
    ensures |b| >= 16 + |r.key|
  {
    PutRecord(r) + if version == RETRY_PROTOCOL_VERSION then PutRetry(r.retry) else []
  }

  predicate FetchedFits(r: ProtocolRecord, version: u16) {
    RecordFits(r) && (version == RETRY_PROTOCOL_VERSION && r.retry.Some? ==> MetadataFits(r.retry.value))
  }

  function PutFetchedAll(rs: seq<ProtocolRecord>, version: u16): bytes {
    if rs == [] then [] else PutFetched(rs[0], version) + PutFetchedAll(rs[1..], version)
  }

  function TakeRetry(data: bytes): Result<Parsed<Option<RetryMetadata>>> {
    var present :- Take8(data);
    if present.value > 1 then Err(InvalidArgument)
    else if present.value == 0 then Ok(Parsed(None, present.rest))
    else
      var m :- TakeMetadata(present.rest);
      Ok(Parsed(Some(m.value), m.rest))
  }

  function TakeFetched(data: bytes, version: u16): Result<Parsed<ProtocolRecord>> {
    var record :- TakeRecord(data);
    if version != RETRY_PROTOCOL_VERSION then Ok(record)
    else
      var retry :- TakeRetry(record.rest);
      Ok(Parsed(record.value.(retry := retry.value), retry.rest))
  }

  function TakeFetchedAll(data: bytes, count: nat, version: u16): Result<Parsed<seq<ProtocolRecord>>>
    decreases count
  {
    if count == 0 then Ok(Parsed([], data))
    else
      var first :- TakeFetched(data, version);
      var others :- TakeFetchedAll(first.rest, count - 1, version);
      Ok(Parsed([first.value] + others.value, others.rest))
  }

  /** What a reader of the given version sees of a record. */
  function SeenBy(r: ProtocolRecord, version: u16): ProtocolRecord {
    if version == RETRY_PROTOCOL_VERSION then r else WithoutRetry(r)
  }

  function AllSeenBy(rs: seq<ProtocolRecord>, version: u16): (s: seq<ProtocolRecord>)
    ensures |s| == |rs|
  {
    if rs == [] then [] else [SeenBy(rs[0], version)] + AllSeenBy(rs[1..], version)
  }

  lemma TakeRetryPut(retry: Option<RetryMetadata>, rest: bytes)
    requires retry.Some? ==> MetadataFits(retry.value)
    ensures TakeRetry(PutRetry(retry) + rest) == Ok(Parsed(retry, rest))
  {
    hide Take8, Put8, TakeMetadata, PutMetadata;
    match retry
    case None => Take8Put(0, rest);
    case Some(m) =>
      Take8Put(1, PutMetadata(m) + rest);
      TakeMetadataPut(m, rest);
      assert PutRetry(retry) + rest == Put8(1) + (PutMetadata(m) + rest);
  }

  lemma TakeFetchedPut(r: ProtocolRecord, version: u16, rest: bytes)
    requires FetchedFits(r, version)
    ensures TakeFetched(PutFetched(r, version) + rest, version) == Ok(Parsed(SeenBy(r, version), rest))
  {
    hide TakeRecord, PutRecord, TakeRetry, PutRetry, RecordFits, MetadataFits;
    if version == RETRY_PROTOCOL_VERSION {
      TakeRecordPut(r, PutRetry(r.retry) + rest);
      TakeRetryPut(r.retry, rest);
      assert PutFetched(r, version) + rest == PutRecord(r) + (PutRetry(r.retry) + rest);
    } else {
      TakeRecordPut(r, rest);
      assert PutFetched(r, version) + rest == PutRecord(r) + rest;
    }
  }

  lemma {:induction false} TakeFetchedAllPut(rs: seq<ProtocolRecord>, version: u16, rest: bytes)
    requires forall i :: 0 <= i < |rs| ==> FetchedFits(rs[i], version)
    ensures TakeFetchedAll(PutFetchedAll(rs, version) + rest, |rs|, version) == Ok(Parsed(AllSeenBy(rs, version), rest))
  {
    hide TakeFetched, PutFetched, FetchedFits, SeenBy;
    if rs == [] {
      assert PutFetchedAll(rs, version) + rest == rest;
    } else {
      var tail := PutFetchedAll(rs[1..], version) + rest;
      assert PutFetchedAll(rs, version) + rest == PutFetched(rs[0], version) + tail;
      TakeFetchedPut(rs[0], version, tail);
      TakeFetchedAllPut(rs[1..], version, rest);
    }
  }

  predicate FetchFits(f: FetchResponse, version: u16) {
    && f.baseOffset >= 0 && f.highWatermark >= 0 && |f.records| < TWO_32
    && forall i :: 0 <= i < |f.records| ==> FetchedFits(f.records[i], version)
  }

  /** EncodeFetchResponseBody, for a response it accepts. */
  function PutFetch(f: FetchResponse, version: u16): bytes {
    Put64(FromI64(f.baseOffset)) + (Put64(FromI64(f.highWatermark))
    + (Put32(|f.records| % TWO_32) + PutFetchedAll(f.records, version)))
  }

  /** DecodeFetchResponseBody, with its guard against absurd record counts. */
  function TakeFetch(data: bytes, version: u16): Result<Parsed<FetchResponse>> {
    var base :- Take64(data);
    var high :- Take64(base.rest);
    var count :- Take32(high.rest);
    if count.value > |count.rest| / 16 then Err(InvalidArgument)
    else
      var records :- TakeFetchedAll(count.rest, count.value, version);
      Ok(Parsed(FetchResponse(ToI64(base.value), ToI64(high.value), records.value), records.rest))
  }

  lemma {:induction false} FetchedSizes(rs: seq<ProtocolRecord>, version: u16)
    ensures 16 * |rs| <= |PutFetchedAll(rs, version)|
  {
    hide PutFetched;
    if rs != [] { FetchedSizes(rs[1..], version); }
  }

  /** A Fetch response is read back as sent, apart from the metadata version 1 does not carry; the
      count guard never rejects an encoded response. */
  lemma FetchRoundTrip(f: FetchResponse, version: u16, rest: bytes)
    requires FetchFits(f, version)
    ensures TakeFetch(PutFetch(f, version) + rest, version)
         == Ok(Parsed(f.(records := AllSeenBy(f.records, version)), rest))
  {
    hide Take32, Take64, Put32, Put64, TakeFetchedAll, PutFetchedAll, FetchedFits, AllSeenBy;
    var c := PutFetchedAll(f.records, version) + rest;
    var b := Put32(|f.records|) + c;
    var a := Put64(FromI64(f.highWatermark)) + b;
    assert PutFetch(f, version) + rest == Put64(FromI64(f.baseOffset)) + a;
    Take64Put(FromI64(f.baseOffset), a);
    Take64Put(FromI64(f.highWatermark), b);
    Take32Put(|f.records|, c);
    FetchedSizes(f.records, version);
    TakeFetchedAllPut(f.records, version, rest);
  }

  // ---- The response frame around it ----

  datatype FetchEnvelope = FetchEnvelope(version: u16, error: ProtocolErrorCode, message: bytes, fetch: FetchResponse)

  /** EncodeResponse for a successful Fetch with request id 0 and no message. */
  function EncodedFetchFrame(f: FetchResponse, version: u16): (r: Result<bytes>)
    ensures r.Ok? ==> |r.value| <= MAX_FRAME_BYTES
  {
    if !SupportedVersion(version) || !FetchFits(f, version) then Err(InvalidArgument)
    else
      var body := Put16(ErrorNumber(NoError)) + (PutString([]) + PutFetch(f, version));
      if |body| > MAX_FRAME_BYTES - FRAME_HEADER_BYTES then Err(InvalidArgument)
      else Ok(FrameHeader(FRAME_HEADER_BYTES + |body|, KeyFetch, version, 0) + body)
  }

  /** DecodeResponse as far as a Fetch envelope is concerned: a successful frame for another key is
      an error here; its caller rejects such a frame whatever its body. */
  function DecodedFetchFrame(frame: bytes): Result<FetchEnvelope> {
    if !ValidFrame(frame) then Err(InvalidArgument)
    else
      var code :- Take16(frame[4..]);
      var key :- KeyOf(code.value);
      var version :- Take16(code.rest);
      if !SupportedVersion(version.value) then Err(InvalidArgument)
      else
        var requestId :- Take64(version.rest);
        var errorCode :- Take16(requestId.rest);
        var error :- ErrorOf(errorCode.value);
        var message :- TakeString(errorCode.rest);
        if key != KeyFetch then Err(InvalidArgument)
        else if error != NoError then
          if message.rest != [] then Err(InvalidArgument)
          else Ok(FetchEnvelope(version.value, error, message.value, FetchResponse(-1, -1, [])))
        else
          var fetch :- TakeFetch(message.rest, version.value);
          if fetch.rest != [] then Err(InvalidArgument)
          else Ok(FetchEnvelope(version.value, error, message.value, fetch.value))
  }

  lemma FetchFrameRoundTrip(f: FetchResponse, version: u16)
    ensures EncodedFetchFrame(f, version).Ok? ==>
      DecodedFetchFrame(EncodedFetchFrame(f, version).value)
        == Ok(FetchEnvelope(version, NoError, [], f.(records := AllSeenBy(f.records, version))))
  {
    hide Take16, Take64, TakeString, Put16, Put32, Put64, PutString, TakeFetch, PutFetch, FetchFits, FrameLength, KeyOf,
      AllSeenBy;
    if EncodedFetchFrame(f, version).Ok? {
      var frame := EncodedFetchFrame(f, version).value;
      var fetch := PutFetch(f, version);
      var body := Put16(0) + (PutString([]) + fetch);
      var tail := Put16(KeyCode(KeyFetch)) + (Put16(version) + (Put64(0) + body));
      assert frame == Put32(FRAME_HEADER_BYTES + |body|) + tail;
      assert frame[4..] == tail;
      FrameLengthOf(FRAME_HEADER_BYTES + |body|, tail);
      HeaderRoundTrip(KeyFetch, version, 0, body);
      Take16Put(0, PutString([]) + fetch);
      TakeStringPut([], fetch);
      FetchRoundTrip(f, version, []);
      assert fetch + [] == fetch;
    }
  }

  // ---- The stored envelope ----

  /** "LMQR\\x01" */
  const ENVELOPE_MAGIC: bytes := [76, 77, 81, 82, 1]

  /** EncodeRetryRecord. */
  function EncodedRetryRecord(r: ProtocolRecord): Result<Record> {
    if r.retry.None? || IsInternalTopic(r.retry.value.originalTopic) then Err(InvalidArgument)
    else
      var frame :- EncodedFetchFrame(FetchResponse(0, 1, [r]), RETRY_PROTOCOL_VERSION);
      Ok(Record(r.timestamp, r.key, ENVELOPE_MAGIC + frame, 0))
  }

  /** DecodeRetryRecord: every failure is Corruption. */
  function DecodedRetryRecord(stored: Record): (r: Result<ProtocolRecord>)
    ensures r.Ok? ==> r.value.retry.Some? && !IsInternalTopic(r.value.retry.value.originalTopic)
    ensures r.Ok? ==> r.value.key == stored.key && r.value.timestamp == stored.timestamp
    ensures r.Err? ==> r.error == Corruption
  {
    if !StartsWith(stored.value, ENVELOPE_MAGIC) then Err(Corruption)
    else
      var decoded := DecodedFetchFrame(stored.value[|ENVELOPE_MAGIC|..]);
      if decoded.Err? || decoded.value.version != RETRY_PROTOCOL_VERSION || decoded.value.error != NoError
      then Err(Corruption)
      else
        var fetch := decoded.value.fetch;
        if fetch.baseOffset != 0 || fetch.highWatermark != 1 || |fetch.records| != 1
           || fetch.records[0].retry.None? || IsInternalTopic(fetch.records[0].retry.value.originalTopic)
           || fetch.records[0].key != stored.key || fetch.records[0].timestamp != stored.timestamp
        then Err(Corruption)
        else Ok(fetch.records[0])
  }

  /** A stored retry record decodes to the record it was made from, also once the log has stamped it. */
  lemma RetryRecordRoundTrip(r: ProtocolRecord)
    ensures EncodedRetryRecord(r).Ok? ==>
      && DecodedRetryRecord(EncodedRetryRecord(r).value) == Ok(r)
      && DecodedRetryRecord(Stamped(EncodedRetryRecord(r).value)) == Ok(r)
  {
    hide EncodedFetchFrame, DecodedFetchFrame, RecordCrc;
    if EncodedRetryRecord(r).Ok? {
      var stored := EncodedRetryRecord(r).value;
      var f := FetchResponse(0, 1, [r]);
      FetchFrameRoundTrip(f, RETRY_PROTOCOL_VERSION);
      assert stored.value[..5] == ENVELOPE_MAGIC;
      assert stored.value[5..] == EncodedFetchFrame(f, RETRY_PROTOCOL_VERSION).value;
      assert [r][1..] == [];
      assert AllSeenBy([r], RETRY_PROTOCOL_VERSION) == [r];
    }
  }

  /** What a frame around one record and its metadata takes up besides their strings. */
  const ENVELOPE_OVERHEAD: nat := 91

  /** Which messages can be stored for a retry: those whose strings leave room for the rest of a frame. */
  lemma EnvelopeEncodableIff(r: ProtocolRecord)
    ensures EncodedRetryRecord(r).Ok? <==>
      && r.retry.Some? && !IsInternalTopic(r.retry.value.originalTopic)
      && var m := r.retry.value;
         && m.retryCount != 0 && m.originalTopic != [] && m.originalPartition >= 0 && m.originalOffset >= 0
         && |r.key| + |r.value| + |m.originalTopic| + |m.failureReason| + ENVELOPE_OVERHEAD <= MAX_FRAME_BYTES
    ensures EncodedRetryRecord(r).Err? ==> EncodedRetryRecord(r).error == InvalidArgument
  {
    hide IsInternalTopic, FrameHeader, Put8, Put16, Put32, Put64, PutString, PutRecord;
    if r.retry.Some? {
      assert [r][1..] == [];
      assert PutFetchedAll([r], RETRY_PROTOCOL_VERSION) == PutFetched(r, RETRY_PROTOCOL_VERSION) + [];
    }
  }

  /** What a Produce frame around one record takes up besides the strings. */
  const PRODUCE_OVERHEAD: nat := 44

  /** Which messages a client can send in a Produce request of their own. */
  lemma ProduceEncodableIff(topic: bytes, partition: i32, r: ProtocolRecord, version: u16, requestId: u64)
    ensures EncodedRequest(Request(KeyProduce, version, requestId, Produce(topic, partition, [r]))).Ok? <==>
      SupportedVersion(version) && |topic| + |r.key| + |r.value| + PRODUCE_OVERHEAD <= MAX_FRAME_BYTES
  {
    hide FrameHeader, Put32, PutString, PutRecord;
    var body := Produce(topic, partition, [r]);
    assert [r][1..] == [];
    assert PutRecords([r]) == PutRecord(r) + [];
    assert Strings(body) == [topic];
    assert AllShort(Strings(body)) <==> Short(topic) by {
      assert Strings(body)[0] == topic;
    }
    assert [r][0] == r;
  }

  /** Some messages can be produced and not be stored for a retry: exactly those whose strings fit the
      first frame and not, with the reason of the nack, the second. */
  lemma ProducedNotRetriedIff(partition: i32, r: ProtocolRecord, version: u16, requestId: u64, m: RetryMetadata)
    requires SupportedVersion(version) && m.originalTopic != [] && !IsInternalTopic(m.originalTopic)
    requires m.retryCount != 0 && m.originalPartition >= 0 && m.originalOffset >= 0
    ensures var size := |m.originalTopic| + |r.key| + |r.value|;
      && EncodedRequest(Request(KeyProduce, version, requestId, Produce(m.originalTopic, partition, [r]))).Ok?
      && EncodedRetryRecord(r.(retry := Some(m))).Err?
      <==> MAX_FRAME_BYTES - ENVELOPE_OVERHEAD - |m.failureReason| < size <= MAX_FRAME_BYTES - PRODUCE_OVERHEAD
  {
    hide EncodedRetryRecord, EncodedRequest, IsInternalTopic;
    ProduceEncodableIff(m.originalTopic, partition, r, version, requestId);
    EnvelopeEncodableIff(r.(retry := Some(m)));
  }
}
