/** What RetryScheduler::Start insists on, for any logs, whoever wrote them. */
module StartAcceptance {
  import opened Basics
  import opened Records
  import opened PartitionLogs
  import opened RetryCodec
  import opened Topics
  import opened RetryStart

  /** The record says where it is: in the topic of its original, behind the prefix its deadline calls
      for, and in the partition of its original. */
  predicate Belongs(topic: bytes, id: nat, stored: Record) {
    var decoded := DecodedRetryRecord(stored);
    decoded.Ok? &&
    var m := decoded.value.retry.value;
    && topic == (if m.nextVisibleTime == 0 then DLQ_PREFIX else RETRY_PREFIX) + m.originalTopic
    && m.originalPartition == id
  }

  predicate BatchBelongs(topic: bytes, id: nat, batch: seq<Record>) {
    |batch| == 1 && BatchBytesOf(batch) <= MAX_RETRY_BATCH_BYTES && Belongs(topic, id, batch[0])
  }

  predicate LogBelongs(topic: bytes, id: nat, log: PartitionLog) {
    NextOffset(log) <= TWO_63 && forall i :: 0 <= i < |log| ==> BatchBelongs(topic, id, log[i])
  }

  predicate TopicBelongs(topics: TopicMap, topic: bytes)
    requires topic in topics
  {
    && OriginalOf(topic) in topics && |topics[OriginalOf(topic)]| == |topics[topic]| <= TWO_31
    && forall id :: 0 <= id < |topics[topic]| ==> LogBelongs(topic, id, topics[topic][id])
  }

  /** No commit log holds an empty batch. */
  predicate NoEmptyBatch(log: PartitionLog) {
    forall i :: 0 <= i < |log| ==> log[i] != []
  }

  predicate NoEmptyBatches(topics: TopicMap) {
    forall t, id :: t in topics && 0 <= id < |topics[t]| ==> NoEmptyBatch(topics[t][id])
  }

  lemma BelongsIff(topic: bytes, id: nat, stored: Record)
    requires IsInternalTopic(topic)
    ensures Belongs(topic, id, stored) <==> RecordAccepted(topic, id, stored)
  {
    hide DecodedRetryRecord;
    var decoded := DecodedRetryRecord(stored);
    if decoded.Ok? {
      var m := decoded.value.retry.value;
      OriginalOfInternal(RETRY_PREFIX, m.originalTopic);
      OriginalOfInternal(DLQ_PREFIX, m.originalTopic);
      InternalSplits(topic);
    }
  }

  lemma InternalSplits(topic: bytes)
    requires IsInternalTopic(topic)
    ensures IsRetryTopic(topic) ==> topic == RETRY_PREFIX + OriginalOf(topic) && !IsDlqTopic(topic)
    ensures IsDlqTopic(topic) ==> topic == DLQ_PREFIX + OriginalOf(topic) && !IsRetryTopic(topic)
  {
    StartsWithAt(topic, RETRY_PREFIX, 1);
    StartsWithAt(topic, DLQ_PREFIX, 1);
  }

  /** A log of single-record batches that fit the budget reads as such at every offset. */
  lemma BelongingAccepted(topic: bytes, id: nat, log: PartitionLog, offset: nat, start: nat)
    requires IsInternalTopic(topic) && LogBelongs(topic, id, log) && offset < NextOffset(log)
    ensures OffsetAccepted(topic, id, log, offset, start)
  {
    hide FlatRecords, IndexOf, BaseOf, BatchBytesOf, Belongs, RecordAccepted, IsInternalTopic;
    var i := IndexOf(log, offset);
    assert BatchBelongs(topic, id, log[i]);
    BelongsIff(topic, id, log[i][0]);
    forall m | Min(start, i) <= m <= i ensures BatchBytesOf(log[m]) <= MAX_RETRY_BATCH_BYTES {
      assert BatchBelongs(topic, id, log[m]);
    }
  }

  /** And a log that reads as such at the base offset of a batch has such a batch there. */
  lemma AcceptedBelongs(topic: bytes, id: nat, log: PartitionLog, i: nat, routes: Routes)
    requires IsInternalTopic(topic) && PartitionAccepted(topic, id, log, routes) && i < |log| && log[i] != []
    ensures BatchBelongs(topic, id, log[i])
  {
    hide FlatRecords, IndexOf, BaseOf, BatchBytesOf, Belongs, RecordAccepted, IsInternalTopic;
    BatchSpan(log, i);
    var o := BaseOf(log, i);
    IndexUnique(log, o, i);
    assert OffsetAccepted(topic, id, log, o, routes(topic, id, o));
    BelongsIff(topic, id, log[i][0]);
  }

  lemma LogAcceptedIff(topic: bytes, id: nat, log: PartitionLog, routes: Routes)
    requires IsInternalTopic(topic) && NoEmptyBatch(log)
    ensures PartitionAccepted(topic, id, log, routes) <==> LogBelongs(topic, id, log)
  {
    hide FlatRecords, OffsetAccepted, BatchBelongs, IsInternalTopic;
    if LogBelongs(topic, id, log) {
      forall o: nat | o < NextOffset(log) ensures OffsetAccepted(topic, id, log, o, routes(topic, id, o)) {
        BelongingAccepted(topic, id, log, o, routes(topic, id, o));
      }
    }
    if PartitionAccepted(topic, id, log, routes) {
      LastOffset(topic, id, log, routes);
      forall i | 0 <= i < |log| ensures BatchBelongs(topic, id, log[i]) {
        AcceptedBelongs(topic, id, log, i, routes);
      }
    }
  }

  lemma LastOffset(topic: bytes, id: nat, log: PartitionLog, routes: Routes)
    requires PartitionAccepted(topic, id, log, routes)
    ensures NextOffset(log) <= TWO_63
  {
    hide FlatRecords, ReadLog, RecordAccepted;
    assert NextOffset(log) > TWO_63 ==> OffsetAccepted(topic, id, log, TWO_63, routes(topic, id, TWO_63));
  }

  /** Wherever the indexes lead its reads, Start accepts the topics if and only if every internal one has
      its original beside it, with as many partitions and no more than 2^31, and holds nothing but single
      records that belong there, each in a batch that fits the retry budget. */
  lemma StartAcceptsIff(topics: TopicMap, routes: Routes)
    requires NoEmptyBatches(topics)
    ensures StartAccepts(topics, routes) <==>
      forall t :: t in topics && IsInternalTopic(t) ==> TopicBelongs(topics, t)
  {
    hide PartitionAccepted, LogBelongs, IsInternalTopic, NoEmptyBatch, OriginalOf;
    forall t | t in topics && IsInternalTopic(t) ensures TopicAccepted(topics, t, routes) <==> TopicBelongs(topics, t) {
      forall id: nat | id < |topics[t]|
        ensures PartitionAccepted(t, id, topics[t][id], routes) <==> LogBelongs(t, id, topics[t][id]) {
        LogAcceptedIff(t, id, topics[t][id], routes);
      }
      if TopicAccepted(topics, t, routes) {
        assert |topics[t]| > TWO_31 ==> IdAccepted(topics, t, TWO_31, routes);
        forall id: nat | id < |topics[t]| ensures LogBelongs(t, id, topics[t][id]) {
          assert IdAccepted(topics, t, id, routes);
        }
      }
    }
  }
}
