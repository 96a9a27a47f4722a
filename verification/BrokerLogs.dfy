/** What the operations of the broker do to its logs, and to the deadlines its retry logs hold. */
module BrokerLogs {
  import opened Basics
  import opened Records
  import opened RecordBatches
  import opened PartitionLogs
  import opened Protocol
  import opened RetryCodec
  import opened RetrySchedulers
  import opened Topics
  import opened Broker
  import opened RetryLineage
  import opened NackProofs
  import opened RetryStart
  import Runs = RetryRuns

  /** What a restart finds: the same topics, each log cut short by any number of batches. */
  predicate CutShort(topics: TopicMap, kept: TopicMap) {
    kept.Keys == topics.Keys && Extends(kept, topics)
  }

  // ---- One log at a time ----

  /** A message as it is stored: its timestamp, key and value, and their checksum. */
  predicate StoresMessage(stored: Record, message: ProtocolRecord) {
    && stored.timestamp == message.timestamp && stored.key == message.key && stored.value == message.value
    && stored.crc32 == RecordCrc(stored)
  }

  /** The log holds the messages from the offset on. */
  predicate HoldsAt(log: PartitionLog, base: nat, records: seq<ProtocolRecord>) {
    && base + |records| <= NextOffset(log)
    && forall i :: 0 <= i < |records| ==> StoresMessage(FlatRecords(log)[base + i], records[i])
  }

  /** A successful produce adds its records, in order, as one batch at the end of the selected log, at
      the base offset it answers with, and touches no other log; a refused one changes nothing. */
  lemma ProduceStores(topics: TopicMap, topic: bytes, partition: i32, records: seq<ProtocolRecord>, chosen: i32)
    ensures var (topics', reply) := Produced(topics, topic, partition, records, chosen);
      && (reply.Failure? ==> topics' == topics)
      && (reply.Success? ==>
            var k := Key(topic, if partition == INVALID_PARTITION then chosen else partition);
            var base := reply.value.baseOffset;
            && !IsInternalTopic(topic) && records != [] && reply.value.partition == k.partition
            && base == NextOffset(LogAt(topics, k))
            && NextOffset(LogAt(topics', k)) == base + |records|
            && LogAt(topics, k) <= LogAt(topics', k) && |LogAt(topics', k)| == |LogAt(topics, k)| + 1
            && HoldsAt(LogAt(topics', k), base, records)
            && forall other: Key :: other != k ==> LogAt(topics', other) == LogAt(topics, other))
  {
    hide HoldsAt, NextOffset, AppendTo, ToStorage, IsInternalTopic, LogAt, WithLog;
    var (topics', reply) := Produced(topics, topic, partition, records, chosen);
    if reply.Success? {
      var selected := if partition == INVALID_PARTITION then chosen else partition;
      var log := topics[topic][selected];
      AppendedRecords(log, records);
      PlainLogAt(topics, topic, selected);
      OneLogChanged(topics, topic, selected, AppendTo(log, ToStorage(records)).value);
    }
  }

  lemma OneLogChanged(topics: TopicMap, topic: bytes, partition: i32, log: PartitionLog)
    requires HasPartition(topics, topic, partition)
    ensures var topics' := WithLog(topics, topic, partition, log);
      && LogAt(topics', Key(topic, partition)) == log
      && forall other: Key :: other != Key(topic, partition) ==> LogAt(topics', other) == LogAt(topics, other)
  {
    hide LogAt, WithLog;
    forall k: Key ensures LogAt(WithLog(topics, topic, partition, log), k)
                       == if k == Key(topic, partition) then log else LogAt(topics, k) {
      WithLogAt(topics, topic, partition, log, k);
    }
  }

  lemma PlainLogAt(topics: TopicMap, topic: bytes, partition: i32)
    requires HasPartition(topics, topic, partition)
    ensures LogAt(topics, Key(topic, partition)) == topics[topic][partition]
  {
  }

  lemma AppendedRecords(log: PartitionLog, records: seq<ProtocolRecord>)
    ensures var r := AppendTo(log, ToStorage(records));
      r.Ok? ==>
        && log <= r.value && |r.value| == |log| + 1 && NextOffset(r.value) == NextOffset(log) + |records|
        && HoldsAt(r.value, NextOffset(log), records)
  {
    hide FlatRecords, EncodedPayload, Stamped, StoresMessage;
    var r, stored := AppendTo(log, ToStorage(records)), StampedAll(ToStorage(records));
    FlatSnoc(log, stored);
    if r.Ok? {
      forall i | 0 <= i < |records|
        ensures StoresMessage(FlatRecords(r.value)[NextOffset(log) + i], records[i]) {
        assert FlatRecords(r.value)[NextOffset(log) + i] == stored[i] == Stamped(ToStorageRecord(records[i]));
        StampedStores(records[i]);
      }
    }
  }

  lemma StampedStores(message: ProtocolRecord)
    ensures StoresMessage(Stamped(ToStorageRecord(message)), message)
  {
    var plain := ToStorageRecord(message);
    assert ChecksummedBytes(Stamped(plain)) == ChecksummedBytes(plain);
  }

  /** A nack adds one batch of one record to one internal log, at the offset it answers with, and touches
      no other log; a refused one adds nothing anywhere. */
  lemma NackTouchesOneLog(opts: RetryOptions, topics: TopicMap, visibility: map<Key, Visibility>, n: NackRequest,
                          start: nat, now: Millis, other: Key)
    requires opts.Valid()
    ensures var (topics', reply) := Nacked(opts, topics, visibility, n, start, now);
      if reply.Success? && other == Key(reply.value.topic, n.partition) then
        && LogAt(topics, other) <= LogAt(topics', other)
        && NextOffset(LogAt(topics, other)) == reply.value.offset
        && NextOffset(LogAt(topics', other)) == reply.value.offset + 1
      else LogAt(topics', other) == LogAt(topics, other)
  {
    hide EncodedRetryRecord, Delivered, NackSource, Attempted, LogAt, NextOffset;
    var source := NackSource(topics, visibility, n, start);
    if source.Success? && Attempted(n, source.value).Success? {
      var counted := Counted(opts, Attempted(n, source.value).value, n.reason, now);
      if EncodedRetryRecord(counted).Ok? {
        DeliveredTouchesOneLog(opts, topics, n.partition, counted.retry.value, EncodedRetryRecord(counted).value,
                                other);
      }
    }
  }

  lemma DeliveredTouchesOneLog(opts: RetryOptions, topics: TopicMap, partition: i32, m: RetryMetadata,
                               envelope: Record, other: Key)
    ensures var (topics', reply) := Delivered(opts, topics, partition, m, envelope);
      if reply.Success? && other == Key(reply.value.topic, partition) then
        && LogAt(topics, other) <= LogAt(topics', other)
        && NextOffset(LogAt(topics, other)) == reply.value.offset
        && NextOffset(LogAt(topics', other)) == reply.value.offset + 1
      else LogAt(topics', other) == LogAt(topics, other)
  {
    hide Created, FlatRecords, EncodedPayload, Stamped, StampedAll, Destination, WithLog;
    if m.originalTopic in topics {
      var d, count := Destination(opts, m), |topics[m.originalTopic]| % TWO_32;
      CreatedLogAt(topics, d, count, other);
      CreatedLogAt(topics, d, count, Key(d, partition));
      var created := Created(topics, d, count);
      if created.Ok? && HasPartition(created.value, d, partition) {
        var log := created.value[d][partition];
        var batch := StampedAll([envelope]);
        WithLogAt(created.value, d, partition, log + [batch], other);
        FlatSnoc(log, batch);
      }
    }
  }

  // ---- The retry logs as deadlines ----

  lemma InRetryLogs(topics: TopicMap, k: Key)
    ensures k in RetryLogs(topics) <==> IsRetryTopic(k.topic) && NextOffset(LogAt(topics, k)) > 0
    ensures k in RetryLogs(topics) ==> RetryLogs(topics)[k] == Deadlines(FlatRecords(LogAt(topics, k)))
  {
    hide FlatRecords, IsRetryTopic;
    EmptyLog();
  }

  lemma SameRetryLogs(topics: TopicMap, topics': TopicMap)
    requires forall k: Key :: IsRetryTopic(k.topic) ==> LogAt(topics, k) == LogAt(topics', k)
    ensures RetryLogs(topics) == RetryLogs(topics')
  {
    hide RetryLogs, LogAt, IsRetryTopic, FlatRecords;
    forall k ensures k in RetryLogs(topics) <==> k in RetryLogs(topics') {
      InRetryLogs(topics, k);
      InRetryLogs(topics', k);
    }
    forall k | k in RetryLogs(topics) ensures RetryLogs(topics)[k] == RetryLogs(topics')[k] {
      InRetryLogs(topics, k);
      InRetryLogs(topics', k);
    }
  }

  lemma CreateKeepsRetryLogs(topics: TopicMap, topic: bytes, count: u32)
    ensures RetryLogs(TopicCreated(topics, topic, count).0) == RetryLogs(topics)
  {
    hide Created, LogAt, RetryLogs, IsInternalTopic;
    forall k ensures LogAt(topics, k) == LogAt(TopicCreated(topics, topic, count).0, k) {
      CreatedLogAt(topics, topic, count, k);
    }
    SameRetryLogs(topics, TopicCreated(topics, topic, count).0);
  }

  lemma ProduceKeepsRetryLogs(topics: TopicMap, topic: bytes, partition: i32, records: seq<ProtocolRecord>, chosen: i32)
    ensures RetryLogs(Produced(topics, topic, partition, records, chosen).0) == RetryLogs(topics)
  {
    hide LogAt, RetryLogs, AppendTo, NextOffset, ToStorage, IsRetryTopic, WithLog;
    var topics' := Produced(topics, topic, partition, records, chosen).0;
    forall k: Key | IsRetryTopic(k.topic) ensures LogAt(topics, k) == LogAt(topics', k) {
      if topics' != topics {
        var selected := if partition == INVALID_PARTITION then chosen else partition;
        var log := AppendTo(topics[topic][selected], ToStorage(records)).value;
        WithLogAt(topics, topic, selected, log, k);
      }
    }
    SameRetryLogs(topics, topics');
  }

  /** What one more retry record does to the retry logs. */
  lemma RetryLogsGrow(topics: TopicMap, topic: bytes, partition: i32, stored: Record)
    requires HasPartition(topics, topic, partition) && IsRetryTopic(topic)
    ensures var k := Key(topic, partition);
      var logs := RetryLogs(topics);
      RetryLogs(WithLog(topics, topic, partition, topics[topic][partition] + [[stored]]))
        == logs[k := Runs.Log(logs, k) + [DeadlineOf(stored)]]
  {
    hide RetryLogs, IsRetryTopic, FlatRecords, WithLog, DeadlineOf;
    var key, logs := Key(topic, partition), RetryLogs(topics);
    var log := topics[topic][partition];
    var topics' := WithLog(topics, topic, partition, log + [[stored]]);
    var logs' := logs[key := Runs.Log(logs, key) + [DeadlineOf(stored)]];
    FlatSnoc(log, [stored]);
    RetryLogAt(topics, key);
    forall k ensures k in RetryLogs(topics') <==> k in logs' {
      RetryLogMember(topics, topic, partition, stored, k);
    }
    forall k | k in logs' ensures RetryLogs(topics')[k] == logs'[k] {
      RetryLogMember(topics, topic, partition, stored, k);
      if k == key {
        assert Deadlines(FlatRecords(log) + [stored]) == Deadlines(FlatRecords(log)) + [DeadlineOf(stored)];
      }
    }
  }

  lemma RetryLogMember(topics: TopicMap, topic: bytes, partition: i32, stored: Record, k: Key)
    requires HasPartition(topics, topic, partition) && IsRetryTopic(topic)
    ensures var log := topics[topic][partition];
      var topics' := WithLog(topics, topic, partition, log + [[stored]]);
      && (k in RetryLogs(topics') <==> k == Key(topic, partition) || k in RetryLogs(topics))
      && (k in RetryLogs(topics') ==>
            RetryLogs(topics')[k] == if k == Key(topic, partition) then Deadlines(FlatRecords(log) + [stored])
                                     else RetryLogs(topics)[k])
  {
    hide RetryLogs, IsRetryTopic, FlatRecords, WithLog, LogAt, Deadlines;
    var log := topics[topic][partition];
    var topics' := WithLog(topics, topic, partition, log + [[stored]]);
    FlatSnoc(log, [stored]);
    WithLogAt(topics, topic, partition, log + [[stored]], k);
    InRetryLogs(topics, k);
    InRetryLogs(topics', k);
  }

  lemma CreatedKeepsRetryLogs(topics: TopicMap, topic: bytes, count: u32)
    ensures Created(topics, topic, count).Ok? ==> RetryLogs(Created(topics, topic, count).value) == RetryLogs(topics)
  {
    hide Created, LogAt, RetryLogs;
    if Created(topics, topic, count).Ok? {
      forall k ensures LogAt(topics, k) == LogAt(Created(topics, topic, count).value, k) {
        CreatedLogAt(topics, topic, count, k);
      }
      SameRetryLogs(topics, Created(topics, topic, count).value);
    }
  }

  lemma OtherLogsSame(topics: TopicMap, topic: bytes, partition: i32, log: PartitionLog)
    requires HasPartition(topics, topic, partition) && !IsRetryTopic(topic)
    ensures RetryLogs(WithLog(topics, topic, partition, log)) == RetryLogs(topics)
  {
    hide LogAt, RetryLogs, IsRetryTopic, WithLog;
    var topics' := WithLog(topics, topic, partition, log);
    forall k: Key | IsRetryTopic(k.topic) ensures LogAt(topics, k) == LogAt(topics', k) {
      WithLogAt(topics, topic, partition, log, k);
    }
    SameRetryLogs(topics, topics');
  }

  /** A delivery appends the deadline of its envelope to one retry log, at the offset it answers with;
      a dead letter or a failure leaves every retry log alone. */
  lemma DeliveredGrowsRetryLogs(opts: RetryOptions, topics: TopicMap, partition: i32, r: ProtocolRecord)
    requires EncodedRetryRecord(r).Ok? && r.retry.Some?
    ensures var (topics', reply) := Delivered(opts, topics, partition, r.retry.value, EncodedRetryRecord(r).value);
      var logs := RetryLogs(topics);
      RetryLogs(topics') ==
        if reply.Success? && !reply.value.deadLetter
        then logs[Key(reply.value.topic, partition) :=
                    Runs.Log(logs, Key(reply.value.topic, partition)) + [r.retry.value.nextVisibleTime]]
        else logs
    ensures var reply := Delivered(opts, topics, partition, r.retry.value, EncodedRetryRecord(r).value).1;
      reply.Success? && !reply.value.deadLetter ==>
        reply.value.offset == |Runs.Log(RetryLogs(topics), Key(reply.value.topic, partition))|
  {
    hide EncodedRetryRecord, DecodedRetryRecord, Created, RetryLogs, Stamped, StampedAll, FlatRecords, EncodedPayload,
      IsRetryTopic, IsDlqTopic, DeadLetter, Destination, WithLog;
    var m, e := r.retry.value, EncodedRetryRecord(r).value;
    var d := Destination(opts, m);
    if m.originalTopic in topics {
      var count := |topics[m.originalTopic]| % TWO_32;
      CreatedKeepsRetryLogs(topics, d, count);
      DestinationNames(opts, m);
      RetryRecordRoundTrip(r);
      StampedOne(e);
      var created := Created(topics, d, count);
      if created.Ok? && HasPartition(created.value, d, partition) {
        var log := created.value[d][partition];
        if DeadLetter(opts, m) {
          OtherLogsSame(created.value, d, partition, log + [[Stamped(e)]]);
        } else {
          RetryLogsGrow(created.value, d, partition, Stamped(e));
          RetryLogAt(created.value, Key(d, partition));
        }
      }
    }
  }

  lemma NackGrowsRetryLogs(opts: RetryOptions, topics: TopicMap, visibility: map<Key, Visibility>, n: NackRequest,
                           start: nat, now: Millis)
    requires opts.Valid()
    ensures var (topics', reply) := Nacked(opts, topics, visibility, n, start, now);
      var logs := RetryLogs(topics);
      if reply.Success? && !reply.value.deadLetter then
        var k := Key(reply.value.topic, n.partition);
        RetryLogs(topics') == logs[k := Runs.Log(logs, k) + [reply.value.retry.nextVisibleTime]]
        && reply.value.offset == |Runs.Log(logs, k)|
      else RetryLogs(topics') == logs
  {
    hide EncodedRetryRecord, Delivered, NackSource, Attempted, RetryLogs;
    var source := NackSource(topics, visibility, n, start);
    if source.Success? && Attempted(n, source.value).Success? {
      var counted := Counted(opts, Attempted(n, source.value).value, n.reason, now);
      if EncodedRetryRecord(counted).Ok? {
        DeliveredGrowsRetryLogs(opts, topics, n.partition, counted);
        DeliveredReply(opts, topics, n.partition, counted.retry.value, EncodedRetryRecord(counted).value);
      }
    }
  }

  lemma {:induction false} DeadlinesPrefix(rs: seq<Record>, rs': seq<Record>)
    requires rs <= rs'
    ensures Deadlines(rs) <= Deadlines(rs')
  {
    hide DeadlineOf;
  }

  lemma CutCutsRetryLogs(topics: TopicMap, kept: TopicMap)
    requires CutShort(topics, kept)
    ensures Runs.CutShort(RetryLogs(topics), RetryLogs(kept))
  {
    hide RetryLogs, IsRetryTopic, FlatRecords, Deadlines;
    forall k ensures Runs.Log(RetryLogs(kept), k) <= Runs.Log(RetryLogs(topics), k) {
      RetryLogAt(topics, k);
      RetryLogAt(kept, k);
      if HasPartition(kept, k.topic, k.partition) {
        assert PartitionsExtend(kept[k.topic], topics[k.topic]);
        FlatPrefix(LogAt(kept, k), LogAt(topics, k));
        DeadlinesPrefix(FlatRecords(LogAt(kept, k)), FlatRecords(LogAt(topics, k)));
      } else {
        assert !HasPartition(topics, k.topic, k.partition) by {
          if k.topic in topics { assert PartitionsExtend(kept[k.topic], topics[k.topic]); }
        }
      }
    }
  }
}
