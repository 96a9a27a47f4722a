/** What the broker keeps true of its topic logs: every retry and dead-letter record is a counted copy
    of a message of its original topic. */
module RetryLineage {
  import opened Basics
  import opened Records
  import opened RecordBatches
  import opened PartitionLogs
  import opened Protocol
  import opened RetryCodec
  import opened Topics
  import opened Broker

  // ---- The form of internal logs ----

  /** The metadata of a record of an internal partition: retries count 1 to the maximum, dead letters
      come after the last retry and have no deadline. */
  predicate MetadataFormed(opts: RetryOptions, topic: bytes, partition: int, m: RetryMetadata) {
    && m.originalTopic == OriginalOf(topic)
    && m.originalPartition == partition
    && if IsRetryTopic(topic) then 1 <= m.retryCount <= opts.maxRetries
       else m.retryCount == opts.maxRetries + 1 && m.nextVisibleTime == 0
  }

  predicate EnvelopeFormed(opts: RetryOptions, topic: bytes, partition: int, stored: Record) {
    && DecodedRetryRecord(stored).Ok?
    && MetadataFormed(opts, topic, partition, DecodedRetryRecord(stored).value.retry.value)
  }

  predicate BatchFormed(opts: RetryOptions, topic: bytes, partition: int, batch: seq<Record>) {
    && batch != [] && BatchBytesOf(batch) <= MAX_RETRY_BATCH_BYTES
    && (IsInternalTopic(topic) ==> |batch| == 1 && EnvelopeFormed(opts, topic, partition, batch[0]))
  }

  predicate LogFormed(opts: RetryOptions, topic: bytes, partition: int, log: PartitionLog) {
    && NextOffset(log) <= MAX_OFFSET
    && forall i :: 0 <= i < |log| ==> BatchFormed(opts, topic, partition, log[i])
  }

  predicate TopicFormed(opts: RetryOptions, topics: TopicMap, topic: bytes)
    requires topic in topics
  {
    && ValidTopicName(topic) && 0 < |topics[topic]| < TWO_32
    && (IsInternalTopic(topic) ==> OriginalOf(topic) in topics && |topics[OriginalOf(topic)]| == |topics[topic]|)
    && forall p :: 0 <= p < |topics[topic]| ==> LogFormed(opts, topic, p, topics[topic][p])
  }

  predicate Formed(opts: RetryOptions, topics: TopicMap) {
    forall t :: t in topics ==> TopicFormed(opts, topics, t)
  }

  // ---- Lineage ----

  /** The message a retry record was made from. */
  predicate CopyOf(source: PartitionLog, r: ProtocolRecord)
    requires r.retry.Some?
  {
    var o := r.retry.value.originalOffset;
    0 <= o < NextOffset(source)
    && var original := FlatRecords(source)[o];
       r.key == original.key && r.value == original.value && r.timestamp == original.timestamp
  }

  predicate EnvelopeRooted(topics: TopicMap, topic: bytes, partition: nat, stored: Record) {
    && OriginalOf(topic) in topics && partition < |topics[OriginalOf(topic)]|
    && DecodedRetryRecord(stored).Ok?
    && CopyOf(topics[OriginalOf(topic)][partition], DecodedRetryRecord(stored).value)
  }

  predicate LogRooted(topics: TopicMap, topic: bytes, partition: nat, log: PartitionLog) {
    forall i, k :: 0 <= i < |log| && 0 <= k < |log[i]| ==> EnvelopeRooted(topics, topic, partition, log[i][k])
  }

  predicate TopicRooted(topics: TopicMap, topic: bytes)
    requires topic in topics
  {
    forall p :: 0 <= p < |topics[topic]| ==> LogRooted(topics, topic, p, topics[topic][p])
  }

  /** Every record of every internal log carries the key, value and timestamp of its original. */
  predicate Rooted(topics: TopicMap) {
    forall t :: t in topics && IsInternalTopic(t) ==> TopicRooted(topics, t)
  }

  // ---- Logs only grow ----

  predicate PartitionsExtend(ps: seq<PartitionLog>, ps': seq<PartitionLog>) {
    |ps| == |ps'| && forall p :: 0 <= p < |ps| ==> ps[p] <= ps'[p]
  }

  predicate Extends(topics: TopicMap, topics': TopicMap) {
    forall t :: t in topics ==> t in topics' && PartitionsExtend(topics[t], topics'[t])
  }

  lemma FlatPrefix(log: PartitionLog, log': PartitionLog)
    requires log <= log'
    ensures FlatRecords(log) <= FlatRecords(log')
  {
    hide FlatRecords;
    FlatOfConcat(log, log'[|log|..]);
    assert log' == log + log'[|log|..];
  }

  lemma ExtendsTransitive(a: TopicMap, b: TopicMap, c: TopicMap)
    requires Extends(a, b) && Extends(b, c)
    ensures Extends(a, c)
  {
    forall t | t in a ensures t in c && PartitionsExtend(a[t], c[t]) {
      assert PartitionsExtend(a[t], b[t]) && PartitionsExtend(b[t], c[t]);
    }
  }

  /** A copy stays a copy while its original's log grows. */
  lemma CopyStays(source: PartitionLog, source': PartitionLog, r: ProtocolRecord)
    requires r.retry.Some? && source <= source' && CopyOf(source, r)
    ensures CopyOf(source', r)
  {
    hide FlatRecords;
    FlatPrefix(source, source');
  }

  lemma EnvelopeStaysRooted(topics: TopicMap, topics': TopicMap, topic: bytes, partition: nat, stored: Record)
    requires Extends(topics, topics') && EnvelopeRooted(topics, topic, partition, stored)
    ensures EnvelopeRooted(topics', topic, partition, stored)
  {
    hide CopyOf, DecodedRetryRecord;
    var original := OriginalOf(topic);
    assert PartitionsExtend(topics[original], topics'[original]);
    CopyStays(topics[original][partition], topics'[original][partition], DecodedRetryRecord(stored).value);
  }

  // ---- One log extended by one batch ----

  lemma WithLogExtends(topics: TopicMap, topic: bytes, partition: i32, batch: seq<Record>)
    requires HasPartition(topics, topic, partition)
    ensures Extends(topics, WithLog(topics, topic, partition, topics[topic][partition] + [batch]))
  {
    var topics' := WithLog(topics, topic, partition, topics[topic][partition] + [batch]);
    forall t | t in topics ensures t in topics' && PartitionsExtend(topics[t], topics'[t]) {
    }
  }

  lemma AddedKeepsFormed(opts: RetryOptions, topics: TopicMap, topic: bytes, partition: i32, batch: seq<Record>)
    requires Formed(opts, topics) && HasPartition(topics, topic, partition)
    requires BatchFormed(opts, topic, partition, batch)
    requires NextOffset(topics[topic][partition]) + |batch| <= MAX_OFFSET
    ensures Formed(opts, WithLog(topics, topic, partition, topics[topic][partition] + [batch]))
  {
    hide BatchFormed, ValidTopicName, FlatRecords;
    FlatSnoc(topics[topic][partition], batch);
    var topics' := WithLog(topics, topic, partition, topics[topic][partition] + [batch]);
    forall t | t in topics' ensures TopicFormed(opts, topics', t) {
      assert TopicFormed(opts, topics, t);
    }
  }

  lemma AddedKeepsRooted(topics: TopicMap, topic: bytes, partition: i32, batch: seq<Record>)
    requires Rooted(topics) && HasPartition(topics, topic, partition)
    requires IsInternalTopic(topic) ==>
      forall k :: 0 <= k < |batch| ==> EnvelopeRooted(topics, topic, partition, batch[k])
    ensures Rooted(WithLog(topics, topic, partition, topics[topic][partition] + [batch]))
  {
    hide EnvelopeRooted;
    var topics' := WithLog(topics, topic, partition, topics[topic][partition] + [batch]);
    WithLogExtends(topics, topic, partition, batch);
    forall t, p, i, k | t in topics' && IsInternalTopic(t) && 0 <= p < |topics'[t]| && 0 <= i < |topics'[t][p]|
      && 0 <= k < |topics'[t][p][i]|
      ensures EnvelopeRooted(topics', t, p, topics'[t][p][i][k])
    {
      assert TopicRooted(topics, t) && LogRooted(topics, t, p, topics[t][p]);
      EnvelopeStaysRooted(topics, topics', t, p, topics'[t][p][i][k]);
    }
    forall t | t in topics' && IsInternalTopic(t) ensures TopicRooted(topics', t) {
      forall p | 0 <= p < |topics'[t]| ensures LogRooted(topics', t, p, topics'[t][p]) {
      }
    }
  }

  // ---- A topic created ----

  lemma CreatedExtends(topics: TopicMap, topic: bytes, count: u32)
    ensures Created(topics, topic, count).Ok? ==> Extends(topics, Created(topics, topic, count).value)
  {
    hide ValidTopicName;
  }

  lemma CreatedKeepsFormed(opts: RetryOptions, topics: TopicMap, topic: bytes, count: u32)
    requires Formed(opts, topics)
    requires IsInternalTopic(topic) ==> OriginalOf(topic) in topics && |topics[OriginalOf(topic)]| == count
    ensures Created(topics, topic, count).Ok? ==> Formed(opts, Created(topics, topic, count).value)
  {
    hide BatchFormed, ValidTopicName, FlatRecords;
    EmptyLog();
    if Created(topics, topic, count).Ok? && topic !in topics {
      var topics' := Created(topics, topic, count).value;
      forall t | t in topics' ensures TopicFormed(opts, topics', t) {
        if t != topic { assert TopicFormed(opts, topics, t); }
      }
    }
  }

  lemma CreatedKeepsRooted(topics: TopicMap, topic: bytes, count: u32)
    requires Rooted(topics)
    ensures Created(topics, topic, count).Ok? ==> Rooted(Created(topics, topic, count).value)
  {
    hide EnvelopeRooted, ValidTopicName;
    if Created(topics, topic, count).Ok? && topic !in topics {
      var topics' := Created(topics, topic, count).value;
      CreatedExtends(topics, topic, count);
      forall t | t in topics' && IsInternalTopic(t) ensures TopicRooted(topics', t) {
        forall p | 0 <= p < |topics'[t]| ensures LogRooted(topics', t, p, topics'[t][p]) {
          forall i, k | 0 <= i < |topics'[t][p]| && 0 <= k < |topics'[t][p][i]|
            ensures EnvelopeRooted(topics', t, p, topics'[t][p][i][k]) {
            assert TopicRooted(topics, t) && LogRooted(topics, t, p, topics[t][p]);
            EnvelopeStaysRooted(topics, topics', t, p, topics'[t][p][i][k]);
          }
        }
      }
    }
  }

  // ---- Produce ----

  lemma ProducedBatchFormed(opts: RetryOptions, topic: bytes, partition: i32, records: seq<ProtocolRecord>)
    requires !IsInternalTopic(topic) && records != [] && WireSize(records) <= MAX_FRAME_BYTES
    ensures BatchFormed(opts, topic, partition, StampedAll(ToStorage(records)))
  {
    hide PayloadSize, WireSize, StampedAll;
    ProducedBatchFits(records);
    StampingKeepsEncoding(ToStorage(records));
  }

  /** Produce keeps the form and lineage of every log, and changes no log but by appending. */
  lemma ProduceKeeps(opts: RetryOptions, topics: TopicMap, topic: bytes, partition: i32,
                     records: seq<ProtocolRecord>, chosen: i32)
    requires Formed(opts, topics) && WireSize(records) <= MAX_FRAME_BYTES
    ensures var topics' := Produced(topics, topic, partition, records, chosen).0;
      Formed(opts, topics') && Extends(topics, topics') && (Rooted(topics) ==> Rooted(topics'))
  {
    hide Formed, Rooted, BatchFormed, NextOffset, EncodedPayload, StampedAll, ToStorage;
    if Produced(topics, topic, partition, records, chosen).1.Success? {
      var selected := if partition == INVALID_PARTITION then chosen else partition;
      var batch := StampedAll(ToStorage(records));
      ProducedBatchFormed(opts, topic, selected, records);
      AddedKeepsFormed(opts, topics, topic, selected, batch);
      WithLogExtends(topics, topic, selected, batch);
      if Rooted(topics) {
        AddedKeepsRooted(topics, topic, selected, batch);
      }
    }
  }

  lemma CreateKeeps(opts: RetryOptions, topics: TopicMap, topic: bytes, count: u32)
    requires Formed(opts, topics)
    ensures var topics' := TopicCreated(topics, topic, count).0;
      Formed(opts, topics') && Extends(topics, topics') && (Rooted(topics) ==> Rooted(topics'))
  {
    hide Formed, Rooted, Created;
    if !IsInternalTopic(topic) {
      CreatedKeepsFormed(opts, topics, topic, count);
      CreatedExtends(topics, topic, count);
      if Rooted(topics) {
        CreatedKeepsRooted(topics, topic, count);
      }
    }
  }
}
