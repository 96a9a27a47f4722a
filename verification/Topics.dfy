/** Topics as the broker sees them: a map from names to the logs of their partitions. */
module Topics {
  import opened Basics
  import opened Records
  import opened RecordBatches
  import opened PartitionLogs
  import opened Protocol
  import opened RequestCodec
  import opened RetryCodec
  import opened Wire
  import opened Frames
  import opened RetrySchedulers

  type TopicMap = map<bytes, seq<PartitionLog>>

  // ---- TopicManager ----

  predicate NameByte(c: byte) {
    48 <= c <= 57 || 65 <= c <= 90 || 97 <= c <= 122 || c == 46 || c == 95 || c == 45
  }

  /** The name with one internal prefix, if any, removed. */
  function OriginalOf(topic: bytes): bytes {
    if IsRetryTopic(topic) then topic[|RETRY_PREFIX|..]
    else if IsDlqTopic(topic) then topic[|DLQ_PREFIX|..]
    else topic
  }

  predicate SafeName(name: bytes) {
    && name != [] && name != [46] && name != [46, 46]
    && forall i :: 0 <= i < |name| ==> NameByte(name[i])
  }

  predicate ValidTopicName(topic: bytes) {
    SafeName(OriginalOf(topic))
  }

  function EmptyPartitions(count: nat): (ps: seq<PartitionLog>)
    ensures |ps| == count && forall i :: 0 <= i < count ==> ps[i] == []
  {
    if count == 0 then [] else EmptyPartitions(count - 1) + [[]]
  }

  /** Creating a topic that exists with the same partition count does nothing. */
  function Created(topics: TopicMap, topic: bytes, count: u32): Result<TopicMap> {
    if !ValidTopicName(topic) || count == 0 then Err(InvalidArgument)
    else if topic in topics then if |topics[topic]| == count then Ok(topics) else Err(InvalidArgument)
    else Ok(topics[topic := EmptyPartitions(count)])
  }

  predicate HasPartition(topics: TopicMap, topic: bytes, partition: i32) {
    topic in topics && 0 <= partition < |topics[topic]|
  }

  function WithLog(topics: TopicMap, topic: bytes, partition: i32, log: PartitionLog): TopicMap
    requires HasPartition(topics, topic, partition)
  {
    topics[topic := topics[topic][partition := log]]
  }

  /** The log of a partition; one that does not exist is empty. */
  function LogAt(topics: TopicMap, k: Key): PartitionLog {
    if HasPartition(topics, k.topic, k.partition) then topics[k.topic][k.partition] else []
  }

  lemma CreatedLogAt(topics: TopicMap, topic: bytes, count: u32, k: Key)
    ensures Created(topics, topic, count).Ok? ==>
      LogAt(Created(topics, topic, count).value, k) == LogAt(topics, k)
  {
    hide ValidTopicName;
  }

  lemma WithLogAt(topics: TopicMap, topic: bytes, partition: i32, log: PartitionLog, k: Key)
    requires HasPartition(topics, topic, partition)
    ensures LogAt(WithLog(topics, topic, partition, log), k)
         == if k == Key(topic, partition) then log else LogAt(topics, k)
  {
  }

  // ---- Names ----

  lemma OriginalOfInternal(prefix: bytes, name: bytes)
    requires prefix == RETRY_PREFIX || prefix == DLQ_PREFIX
    ensures OriginalOf(prefix + name) == name
    ensures IsRetryTopic(prefix + name) <==> prefix == RETRY_PREFIX
    ensures IsDlqTopic(prefix + name) <==> prefix == DLQ_PREFIX
  {
    var t := prefix + name;
    assert t[..|prefix|] == prefix && t[|prefix|..] == name;
    assert t[1] == prefix[1];
    if IsRetryTopic(t) { assert t[..|RETRY_PREFIX|][1] == 82; }
    if IsDlqTopic(t) { assert t[..|DLQ_PREFIX|][1] == 68; }
  }

  lemma StartsWithAt(name: bytes, prefix: bytes, i: nat)
    requires i < |prefix|
    ensures StartsWith(name, prefix) ==> |prefix| <= |name| && name[i] == prefix[i]
  {
    assert StartsWith(name, prefix) ==> name[..|prefix|][i] == name[i];
  }

  lemma SafeNameNotInternal(name: bytes)
    requires SafeName(name)
    ensures !IsInternalTopic(name)
  {
    assert NameByte(name[0]);
    StartsWithAt(name, RETRY_PREFIX, 0);
    StartsWithAt(name, DLQ_PREFIX, 0);
  }

  // ---- Sizes ----

  /** Room for two frame-sized payloads and their headers. */
  const MAX_RETRY_BATCH_BYTES: nat := 2 * MAX_FRAME_BYTES + 128

  function ToStorageRecord(r: ProtocolRecord): Record {
    Record(r.timestamp, r.key, r.value, 0)
  }

  function ToStorage(rs: seq<ProtocolRecord>): (s: seq<Record>)
    ensures |s| == |rs|
    ensures forall i :: 0 <= i < |s| ==> s[i] == ToStorageRecord(rs[i])
  {
    if rs == [] then [] else [ToStorageRecord(rs[0])] + ToStorage(rs[1..])
  }

  /** What records take up in the body of a Produce frame. */
  function WireSize(rs: seq<ProtocolRecord>): nat {
    if rs == [] then 0 else 16 + |rs[0].key| + |rs[0].value| + WireSize(rs[1..])
  }

  lemma {:induction false} TakeRecordsSize(data: bytes, count: nat)
    ensures TakeRecords(data, count).Ok? ==>
      WireSize(TakeRecords(data, count).value.value) + |TakeRecords(data, count).value.rest| == |data|
    decreases count
  {
    hide Take64, TakeString;
    if count != 0 && TakeRecords(data, count).Ok? {
      var first := TakeRecord(data).value;
      TakeRecordsSize(first.rest, count - 1);
      assert TakeRecords(data, count).value.value[1..] == TakeRecords(first.rest, count - 1).value.value;
    }
  }

  /** The records of a decodable Produce frame fit the frame. */
  lemma ProduceFrameSize(frame: bytes)
    ensures DecodedRequest(frame).Ok? && DecodedRequest(frame).value.body.Produce? ==>
      WireSize(DecodedRequest(frame).value.body.records) <= MAX_FRAME_BYTES
  {
    hide Take16, Take32, Take64, TakeString, TakeRecords, FrameLength, KeyOf, WireSize,
      DecodedFetch, DecodedNack, DecodedMetadata, DecodedCreateTopic, DecodedCommitOffset,
      DecodedFetchCommittedOffset, DecodedJoinGroup, DecodedSyncGroup, DecodedHeartbeat, DecodedLeaveGroup,
      DecodedProduce;
    if DecodedRequest(frame).Ok? && DecodedRequest(frame).value.body.Produce? {
      var code := Take16(frame[4..]).value;
      var version := Take16(code.rest).value;
      var body := Take64(version.rest).value.rest;
      DecodedKind(KeyOf(code.value).value, body);
      ProduceBodySize(body);
    }
  }

  lemma ProduceBodySize(body: bytes)
    ensures DecodedProduce(body).Ok? ==>
      DecodedProduce(body).value.Produce? && WireSize(DecodedProduce(body).value.records) <= |body|
  {
    hide Take32, TakeString, TakeRecords, WireSize;
    if DecodedProduce(body).Ok? {
      var topic := TakeString(body).value;
      var count := Take32(Take32(topic.rest).value.rest).value;
      TakeRecordsSize(count.rest, count.value);
    }
  }

  lemma DecodedKind(key: ApiKey, body: bytes)
    ensures DecodedBody(key, body).Ok? ==> KeyFor(DecodedBody(key, body).value) == key
  {
    hide Take32, Take64, TakeString, TakeRecords;
  }

  lemma {:induction false} StoredSize(rs: seq<ProtocolRecord>)
    ensures PayloadSize(ToStorage(rs)) == WireSize(rs) + 4 * |rs|
    ensures 16 * |rs| <= WireSize(rs)
    ensures forall i :: 0 <= i < |rs| ==> |rs[i].key| <= WireSize(rs) && |rs[i].value| <= WireSize(rs)
  {
    if rs != [] {
      StoredSize(rs[1..]);
      assert ToStorage(rs)[1..] == ToStorage(rs[1..]);
      forall i | 0 <= i < |rs| ensures |rs[i].key| <= WireSize(rs) && |rs[i].value| <= WireSize(rs) {
        if i > 0 { assert rs[i] == rs[1..][i - 1]; }
      }
    }
  }

  /** Every batch a decodable Produce frame leads to fits the retry budget, and is accepted by any log
      that has offsets left. */
  lemma ProducedBatchFits(rs: seq<ProtocolRecord>)
    requires rs != [] && WireSize(rs) <= MAX_FRAME_BYTES
    ensures BatchBytesOf(ToStorage(rs)) <= MAX_RETRY_BATCH_BYTES
    ensures EncodedPayload(ToStorage(rs)).Ok?
  {
    hide WireSize, PayloadSize;
    StoredSize(rs);
    var s := ToStorage(rs);
    forall i | 0 <= i < |s| ensures StringsFit(s[i]) {
      assert s[i] == ToStorageRecord(rs[i]);
    }
  }

  /** Every envelope batch fits the retry budget. */
  lemma EnvelopeBatchFits(r: ProtocolRecord)
    ensures EncodedRetryRecord(r).Ok? ==>
      var stored := EncodedRetryRecord(r).value;
      && BatchBytesOf([stored]) <= MAX_RETRY_BATCH_BYTES
      && EncodedPayload([stored]).Ok?
  {
    hide FetchFits, PutFetchedAll, FrameHeader, PutString, Put16;
    if EncodedRetryRecord(r).Ok? {
      var stored := EncodedRetryRecord(r).value;
      var f := FetchResponse(0, 1, [r]);
      var frame := EncodedFetchFrame(f, RETRY_PROTOCOL_VERSION).value;
      FetchedHoldsKey(r);
      assert |stored.value| == 5 + |frame|;
      assert |PutFetchedAll([r], RETRY_PROTOCOL_VERSION)| <= |frame|;
      assert [stored][1..] == [];
      assert PayloadSize([stored]) == EncodedRecordSize(stored) + PayloadSize([]);
      assert StringsFit(stored);
    }
  }

  lemma FetchedHoldsKey(r: ProtocolRecord)
    ensures |r.key| <= |PutFetchedAll([r], RETRY_PROTOCOL_VERSION)|
  {
    hide PutFetched;
    assert [r][0] == r;
  }
}
