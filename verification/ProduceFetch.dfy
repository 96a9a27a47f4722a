/** From a Produce frame to the answer of a Fetch: what a producer sends is what a consumer gets. */
module ProduceFetch {
  import opened Basics
  import opened Records
  import opened RecordBatches
  import opened PartitionLogs
  import opened Protocol
  import opened RequestCodec
  import opened RetryCodec
  import opened Wire
  import opened Frames
  import opened RetrySchedulers
  import opened Topics
  import opened Broker
  import opened FetchProofs
  import opened BrokerLogs

  /** The messages as they are delivered: unchanged, but for the retry metadata no producer can set. */
  predicate Delivers(served: seq<ProtocolRecord>, sent: seq<ProtocolRecord>) {
    |served| == |sent| && forall i :: 0 <= i < |sent| ==> served[i] == sent[i].(retry := Option.None)
  }

  lemma LastBatch(log: PartitionLog, log': PartitionLog, offset: nat)
    requires log <= log' && |log'| == |log| + 1 && NextOffset(log) <= offset < NextOffset(log')
    ensures IndexOf(log', offset) == |log| && BaseOf(log', |log|) == NextOffset(log)
    ensures NextOffset(log') == NextOffset(log) + |log'[|log|]|
  {
    hide IndexOf, FlatRecords;
    assert log'[..|log|] == log && log + [log'[|log|]] == log';
    FlatSnoc(log, log'[|log|]);
    IndexUnique(log', offset, |log|);
  }

  /** Once a produce is accepted, every offset it got is answered with the whole batch it was sent in,
      message by message, if and only if the batches the read passes fit the budget. */
  lemma ProducedIsFetched(topics: TopicMap, visibility: map<Key, Visibility>, topic: bytes, partition: i32,
                          records: seq<ProtocolRecord>, chosen: i32, i: nat, maxBytes: u32, version: u16, start: nat)
    requires i < |records| && maxBytes > 0
    ensures var (topics', reply) := Produced(topics, topic, partition, records, chosen);
      reply.Success? ==>
        var k, base := Key(topic, reply.value.partition), reply.value.baseOffset;
        var log, last := LogAt(topics', k), |LogAt(topics, k)|;
        && base + i < TWO_63 && last < |log| && (|records| < TWO_32 ==> reply.value.count == |records|)
        && var r := FetchedFrom(topics', visibility, FetchRequest(topic, k.partition, base + i, maxBytes), version,
                                start);
           && (r.Success? <==> Within(log, Min(start, last), last, maxBytes))
           && (r.Failure? ==> r.code == InvalidRequest)
           && (r.Success? ==>
                 && r.value.base == base && r.value.highWatermark == NextOffset(log)
                 && Delivers(r.value.records, records))
  {
    hide Produced, FetchedFrom, IndexOf, FlatRecords, Within, HoldsAt, IsInternalTopic;
    var (topics', reply) := Produced(topics, topic, partition, records, chosen);
    if reply.Success? {
      ProduceStores(topics, topic, partition, records, chosen);
      ProduceInRange(topics, topic, partition, records, chosen);
      var k := Key(topic, reply.value.partition);
      FetchOfLast(topics', visibility, k, LogAt(topics, k), records, i, maxBytes, version, start);
    }
  }

  lemma ProduceInRange(topics: TopicMap, topic: bytes, partition: i32, records: seq<ProtocolRecord>, chosen: i32)
    ensures var (topics', reply) := Produced(topics, topic, partition, records, chosen);
      reply.Success? ==>
        && reply.value.baseOffset + |records| < TWO_63 && (|records| < TWO_32 ==> reply.value.count == |records|)
        && HasPartition(topics', topic, reply.value.partition)
  {
    hide FlatRecords, IsInternalTopic, EncodedPayload, AppendTo, ToStorage;
    SmallCount(|records|);
  }

  lemma SmallCount(n: nat)
    ensures n < TWO_32 ==> n % TWO_32 == n
  {
  }

  lemma FetchOfLast(topics: TopicMap, visibility: map<Key, Visibility>, k: Key, before: PartitionLog,
                    records: seq<ProtocolRecord>, i: nat, maxBytes: u32, version: u16, start: nat)
    requires HasPartition(topics, k.topic, k.partition) && !IsInternalTopic(k.topic) && maxBytes > 0
    requires var log := LogAt(topics, k);
      && before <= log && |log| == |before| + 1 && NextOffset(log) == NextOffset(before) + |records|
      && HoldsAt(log, NextOffset(before), records)
    requires i < |records| && NextOffset(before) + i < TWO_63
    ensures var f := FetchRequest(k.topic, k.partition, NextOffset(before) + i, maxBytes);
      var r, log := FetchedFrom(topics, visibility, f, version, start), LogAt(topics, k);
      && (r.Success? <==> Within(log, Min(start, |before|), |before|, maxBytes))
      && (r.Failure? ==> r.code == InvalidRequest)
      && (r.Success? ==>
            && r.value.base == NextOffset(before) && r.value.highWatermark == NextOffset(log)
            && Delivers(r.value.records, records))
  {
    hide IndexOf, FlatRecords, Within, HoldsAt, Served, BaseOf;
    var log, last, base := LogAt(topics, k), |before|, NextOffset(before);
    LastBatch(before, log, base + i);
    BatchSpan(log, last);
    OrdinaryServed(log[last], maxBytes, version);
    ServedViews(log[last], k.topic, maxBytes, version);
    HeldIsDelivered(log, base, records);
  }

  lemma HeldIsDelivered(log: PartitionLog, base: nat, records: seq<ProtocolRecord>)
    requires HoldsAt(log, base, records)
    ensures base + |records| <= |FlatRecords(log)|
    ensures forall i :: 0 <= i < |records| ==>
              ToProtocol(FlatRecords(log)[base + i]) == records[i].(retry := Option.None)
  {
    hide FlatRecords;
    forall i | 0 <= i < |records|
      ensures ToProtocol(FlatRecords(log)[base + i]) == records[i].(retry := Option.None) {
      assert StoresMessage(FlatRecords(log)[base + i], records[i]);
    }
  }

  /** What a Produce frame asks for is refused as unknown if and only if its topic is ordinary and has no
      such partition, and as invalid if and only if the topic is internal or its partition has no offsets
      left for the messages; nothing else can go wrong. */
  lemma ProduceRefusedIff(frame: bytes, topics: TopicMap, chosen: i32)
    requires DecodedRequest(frame).Ok? && DecodedRequest(frame).value.body.Produce?
    ensures var body := DecodedRequest(frame).value.body;
      var selected := if body.partition == -1 then chosen else body.partition;
      var log := LogAt(topics, Key(body.topic, selected));
      var r := Produced(topics, body.topic, body.partition, body.records, chosen).1;
      && (r == Failure(TopicNotFound) <==>
            !IsInternalTopic(body.topic) && !HasPartition(topics, body.topic, selected))
      && (r == Failure(InvalidRequest) <==>
            || IsInternalTopic(body.topic)
            || (HasPartition(topics, body.topic, selected) && NextOffset(log) + |body.records| >= TWO_63))
      && (r.Failure? ==> r.code == TopicNotFound || r.code == InvalidRequest)
  {
    hide DecodedRequest, AppendTo, FlatRecords, IsInternalTopic, ToStorage, BatchBytesOf, EncodedPayload, StampedAll;
    var body := DecodedRequest(frame).value.body;
    ProduceFrameRecords(frame);
    ProducedBatchFits(body.records);
    var selected := if body.partition == -1 then chosen else body.partition;
    if HasPartition(topics, body.topic, selected) {
      AppendRefused(topics[body.topic][selected], ToStorage(body.records));
    }
  }

  lemma AppendRefused(log: PartitionLog, records: seq<Record>)
    requires records != [] && EncodedPayload(records).Ok?
    ensures AppendTo(log, records).Ok? <==> NextOffset(log) + |records| < TWO_63
    ensures AppendTo(log, records).Err? ==> AppendTo(log, records).error == InvalidArgument
  {
    hide FlatRecords, EncodedPayload, StampedAll;
  }

  lemma ProduceFrameRecords(frame: bytes)
    ensures DecodedRequest(frame).Ok? && DecodedRequest(frame).value.body.Produce? ==>
      var records := DecodedRequest(frame).value.body.records;
      records != [] && WireSize(records) <= MAX_FRAME_BYTES
  {
    hide Take16, Take32, Take64, TakeString, TakeRecords, FrameLength, KeyOf, WireSize,
      DecodedFetch, DecodedNack, DecodedMetadata, DecodedCreateTopic, DecodedCommitOffset,
      DecodedFetchCommittedOffset, DecodedJoinGroup, DecodedSyncGroup, DecodedHeartbeat, DecodedLeaveGroup,
      DecodedProduce;
    ProduceFrameSize(frame);
    if DecodedRequest(frame).Ok? && DecodedRequest(frame).value.body.Produce? {
      var code := Take16(frame[4..]).value;
      var version := Take16(code.rest).value;
      var body := Take64(version.rest).value.rest;
      DecodedKind(KeyOf(code.value).value, body);
      ProduceBodyRecords(body);
    }
  }

  lemma ProduceBodyRecords(body: bytes)
    ensures DecodedProduce(body).Ok? ==> DecodedProduce(body).value.Produce? && DecodedProduce(body).value.records != []
  {
    hide Take32, TakeString, TakeRecord;
    if DecodedProduce(body).Ok? {
      var topic := TakeString(body).value;
      var count := Take32(Take32(topic.rest).value.rest).value;
      var first := TakeRecord(count.rest).value;
      assert first.value in TakeRecords(count.rest, count.value).value.value;
    }
  }
}
