/** What is left after a restart, and when Start accepts it. */
module BrokerRestarts {
  import opened Basics
  import opened Records
  import opened PartitionLogs
  import opened Protocol
  import opened RetryCodec
  import opened RetrySchedulers
  import opened Topics
  import opened Broker
  import opened RetryLineage
  import opened NackProofs
  import opened RetryStart
  import opened BrokerLogs
  import opened FetchProofs
  import Runs = RetryRuns

  // ---- Form and lineage of what is left ----

  /** A cut leaves logs as well-formed as they were. */
  lemma CutKeepsFormed(opts: RetryOptions, topics: TopicMap, kept: TopicMap)
    requires Formed(opts, topics) && CutShort(topics, kept)
    ensures Formed(opts, kept)
  {
    hide BatchFormed, ValidTopicName, FlatRecords;
    forall t | t in kept ensures TopicFormed(opts, kept, t) {
      assert t in topics && TopicFormed(opts, topics, t) && PartitionsExtend(kept[t], topics[t]);
      if IsInternalTopic(t) {
        assert OriginalOf(t) in kept && PartitionsExtend(kept[OriginalOf(t)], topics[OriginalOf(t)]);
      }
      forall p | 0 <= p < |kept[t]| ensures LogFormed(opts, t, p, kept[t][p]) {
        assert LogFormed(opts, t, p, topics[t][p]);
        FlatPrefix(kept[t][p], topics[t][p]);
        forall i | 0 <= i < |kept[t][p]| ensures BatchFormed(opts, t, p, kept[t][p][i]) {
          assert kept[t][p][i] == topics[t][p][i];
        }
      }
    }
  }

  /** The original of every surviving retry record survived as well. */
  predicate OriginalKept(kept: TopicMap, topic: bytes, partition: nat, stored: Record) {
    OriginalOf(topic) in kept && partition < |kept[OriginalOf(topic)]| && DecodedRetryRecord(stored).Ok?
    && DecodedRetryRecord(stored).value.retry.value.originalOffset < NextOffset(kept[OriginalOf(topic)][partition])
  }

  predicate LogOriginalsKept(kept: TopicMap, topic: bytes, partition: nat, log: PartitionLog) {
    forall i, k :: 0 <= i < |log| && 0 <= k < |log[i]| ==> OriginalKept(kept, topic, partition, log[i][k])
  }

  predicate OriginalsKept(kept: TopicMap) {
    forall t, p :: t in kept && IsInternalTopic(t) && 0 <= p < |kept[t]| ==> LogOriginalsKept(kept, t, p, kept[t][p])
  }

  lemma CutEnvelope(topics: TopicMap, kept: TopicMap, topic: bytes, partition: nat, stored: Record)
    requires CutShort(topics, kept) && EnvelopeRooted(topics, topic, partition, stored)
    ensures EnvelopeRooted(kept, topic, partition, stored) <==> OriginalKept(kept, topic, partition, stored)
  {
    hide DecodedRetryRecord, FlatRecords;
    var original := OriginalOf(topic);
    assert PartitionsExtend(kept[original], topics[original]);
    FlatPrefix(kept[original][partition], topics[original][partition]);
  }

  /** After a restart every retry record is still a copy of its original if and only if no original
      was lost to the cut. */
  lemma CutKeepsRootedIff(topics: TopicMap, kept: TopicMap)
    requires Rooted(topics) && CutShort(topics, kept)
    ensures Rooted(kept) <==> OriginalsKept(kept)
  {
    hide EnvelopeRooted, OriginalKept;
    forall t, p, i, k | t in kept && IsInternalTopic(t) && 0 <= p < |kept[t]| && 0 <= i < |kept[t][p]|
      && 0 <= k < |kept[t][p][i]|
      ensures EnvelopeRooted(kept, t, p, kept[t][p][i][k]) <==> OriginalKept(kept, t, p, kept[t][p][i][k])
    {
      assert PartitionsExtend(kept[t], topics[t]);
      assert TopicRooted(topics, t) && LogRooted(topics, t, p, topics[t][p]);
      assert kept[t][p][i] == topics[t][p][i];
      CutEnvelope(topics, kept, t, p, kept[t][p][i][k]);
    }
    if OriginalsKept(kept) {
      forall t | t in kept && IsInternalTopic(t) ensures TopicRooted(kept, t) {
        forall p | 0 <= p < |kept[t]| ensures LogRooted(kept, t, p, kept[t][p]) {
          assert LogOriginalsKept(kept, t, p, kept[t][p]);
        }
      }
    }
    if Rooted(kept) {
      forall t, p | t in kept && IsInternalTopic(t) && 0 <= p < |kept[t]|
        ensures LogOriginalsKept(kept, t, p, kept[t][p]) {
        assert TopicRooted(kept, t) && LogRooted(kept, t, p, kept[t][p]);
      }
    }
  }

  // ---- What Start accepts of it ----

  /** Every internal partition has an id that survives a cast to a signed one. */
  predicate Addressable(topics: TopicMap) {
    forall t :: t in topics && IsInternalTopic(t) ==> |topics[t]| <= TWO_31
  }

  /** No retry log holds the deadline 0. */
  ghost predicate Dated(topics: TopicMap) {
    AllPositive(RetryLogs(topics))
  }

  ghost predicate AllPositive(logs: map<Key, seq<u64>>) {
    forall k: Key, i: nat :: i < |Runs.Log(logs, k)| ==> Runs.Log(logs, k)[i] > 0
  }

  /** Start accepts an offset of a log the broker wrote unless it holds a retry with the deadline 0. */
  lemma FormedOffsetAccepted(opts: RetryOptions, topics: TopicMap, topic: bytes, id: nat, offset: nat, start: nat)
    requires Formed(opts, topics) && topic in topics && IsInternalTopic(topic) && id < |topics[topic]|
    requires offset < NextOffset(topics[topic][id])
    ensures OffsetAccepted(topic, id, topics[topic][id], offset, start)
       <==> IsRetryTopic(topic) ==> DeadlineOf(FlatRecords(topics[topic][id])[offset]) > 0
  {
    hide FlatRecords, IndexOf, BaseOf, DecodedRetryRecord, BatchBytesOf, ReadLog, ValidTopicName, LogFormed;
    SingleBatch(opts, topics, topic, id, offset);
    OffsetBelowMax(opts, topics, topic, id);
    BudgetHolds(opts, topics, topic, id, offset, start);
    if IsRetryTopic(topic) {
      RetryNameSplits(topic);
      OriginalOfInternal(RETRY_PREFIX, OriginalOf(topic));
    }
  }

  lemma OffsetBelowMax(opts: RetryOptions, topics: TopicMap, topic: bytes, id: nat)
    requires Formed(opts, topics) && topic in topics && id < |topics[topic]|
    ensures NextOffset(topics[topic][id]) <= MAX_OFFSET
  {
    hide BatchFormed, ValidTopicName, FlatRecords;
    assert TopicFormed(opts, topics, topic) && LogFormed(opts, topic, id, topics[topic][id]);
  }

  lemma DatedAt(topics: TopicMap, k: Key, i: nat)
    requires Dated(topics) && IsRetryTopic(k.topic) && i < NextOffset(LogAt(topics, k))
    ensures DeadlineOf(FlatRecords(LogAt(topics, k))[i]) > 0
  {
    hide FlatRecords, RetryLogs, DeadlineOf, LogAt, IsRetryTopic;
    RetryLogAt(topics, k);
    assert Runs.Log(RetryLogs(topics), k)[i] > 0;
  }

  lemma AcceptedDated(opts: RetryOptions, topics: TopicMap, routes: Routes, k: Key, i: nat)
    requires Formed(opts, topics) && StartAccepts(topics, routes) && i < |Runs.Log(RetryLogs(topics), k)|
    ensures Runs.Log(RetryLogs(topics), k)[i] > 0
  {
    hide Formed, FlatRecords, RetryLogs, DeadlineOf, OffsetAccepted, IsRetryTopic;
    RetryLogAt(topics, k);
    EmptyLog();
    var t, id := k.topic, k.partition;
    assert TopicAccepted(topics, t, routes);
    assert IdAccepted(topics, t, id, routes);
    assert OffsetAccepted(t, id, topics[t][id], i, routes(t, id, i));
    FormedOffsetAccepted(opts, topics, t, id, i, routes(t, id, i));
  }

  lemma InternalOriginal(opts: RetryOptions, topics: TopicMap, topic: bytes)
    requires Formed(opts, topics) && topic in topics && IsInternalTopic(topic)
    ensures OriginalOf(topic) in topics && |topics[OriginalOf(topic)]| == |topics[topic]|
  {
    hide LogFormed, ValidTopicName;
    assert TopicFormed(opts, topics, topic);
  }

  /** Start accepts whatever is left of logs the broker wrote, wherever each was cut and wherever the
      indexes lead, exactly when the partition ids of internal topics fit and no retry has the deadline 0. */
  lemma WrittenLogsStart(opts: RetryOptions, topics: TopicMap, kept: TopicMap, routes: Routes)
    requires Formed(opts, topics) && CutShort(topics, kept)
    ensures StartAccepts(kept, routes) <==> Addressable(kept) && Dated(kept)
  {
    hide Formed, OffsetAccepted, NextOffset, RetryLogs, Dated, IsRetryTopic, IsDlqTopic, CutShort, DeadlineOf;
    CutKeepsFormed(opts, topics, kept);
    if Addressable(kept) && Dated(kept) {
      forall t | t in kept && IsInternalTopic(t) ensures TopicAccepted(kept, t, routes) {
        InternalOriginal(opts, kept, t);
        forall id: nat | id < |kept[t]| ensures IdAccepted(kept, t, id, routes) {
          forall o: nat | o < NextOffset(kept[t][id]) ensures OffsetAccepted(t, id, kept[t][id], o, routes(t, id, o)) {
            FormedOffsetAccepted(opts, kept, t, id, o, routes(t, id, o));
            if IsRetryTopic(t) { DatedAt(kept, Key(t, id), o); }
          }
        }
      }
    }
    if StartAccepts(kept, routes) {
      AcceptedAddressable(kept, routes);
      AllAcceptedDated(opts, kept, routes);
    }
  }

  lemma AcceptedAddressable(topics: TopicMap, routes: Routes)
    requires StartAccepts(topics, routes)
    ensures Addressable(topics)
  {
    hide PartitionAccepted;
    forall t | t in topics && IsInternalTopic(t) ensures |topics[t]| <= TWO_31 {
      assert TopicAccepted(topics, t, routes);
      assert |topics[t]| > TWO_31 ==> IdAccepted(topics, t, TWO_31, routes);
    }
  }

  lemma AllAcceptedDated(opts: RetryOptions, topics: TopicMap, routes: Routes)
    requires Formed(opts, topics) && StartAccepts(topics, routes)
    ensures Dated(topics)
  {
    hide Formed, StartAccepts, RetryLogs;
    forall k: Key, i: nat | i < |Runs.Log(RetryLogs(topics), k)| ensures Runs.Log(RetryLogs(topics), k)[i] > 0 {
      AcceptedDated(opts, topics, routes, k, i);
    }
  }

  // ---- What a nack does to it ----

  /** Deadlines are positive unless the clock stands at the epoch and retries are immediate. */
  predicate DeadlinePositive(opts: RetryOptions, now: Millis) {
    now + opts.delay > 0
  }

  lemma DatedGrows(logs: map<Key, seq<u64>>, logs': map<Key, seq<u64>>, k: Key, time: u64)
    requires logs' == logs[k := Runs.Log(logs, k) + [time]]
    ensures AllPositive(logs') <==> AllPositive(logs) && time > 0
  {
    assert Runs.Log(logs', k)[|Runs.Log(logs, k)|] == time;
    if AllPositive(logs') {
      forall j: Key, i: nat | i < |Runs.Log(logs, j)| ensures Runs.Log(logs, j)[i] > 0 {
        assert Runs.Log(logs', j)[i] == Runs.Log(logs, j)[i];
      }
    }
    if AllPositive(logs) && time > 0 {
      forall j: Key, i: nat | i < |Runs.Log(logs', j)| ensures Runs.Log(logs', j)[i] > 0 {
        if i < |Runs.Log(logs, j)| {
          assert Runs.Log(logs', j)[i] == Runs.Log(logs, j)[i];
        }
      }
    }
  }

  /** A nack stores the deadline 0 if and only if it succeeds, does not dead-letter, and runs with a clock
      at the epoch and no delay. */
  lemma NackKeepsDated(opts: RetryOptions, topics: TopicMap, visibility: map<Key, Visibility>, n: NackRequest,
                       start: nat, now: Millis)
    requires opts.Valid() && Formed(opts, topics)
    ensures NackAccepted(opts, topics, visibility, n, now) ==> Addressed(topics, n)
    ensures Dated(Nacked(opts, topics, visibility, n, start, now).0) <==>
      && Dated(topics)
      && (NackAccepted(opts, topics, visibility, n, now) ==>
            AttemptsOf(topics, n) == opts.maxRetries || DeadlinePositive(opts, now))
  {
    hide Formed, Nacked, RetryLogs, AttemptsOf, Addressed, CountedMessage;
    NackSucceedsIff(opts, topics, visibility, n, start, now);
    NackCounts(opts, topics, visibility, n, start, now);
    NackGrowsRetryLogs(opts, topics, visibility, n, start, now);
    var (topics', reply) := Nacked(opts, topics, visibility, n, start, now);
    if reply.Success? && !reply.value.deadLetter {
      DatedGrows(RetryLogs(topics), RetryLogs(topics'), Key(reply.value.topic, n.partition),
                 reply.value.retry.nextVisibleTime);
    }
  }

  lemma DeliveredKeys(opts: RetryOptions, topics: TopicMap, partition: i32, m: RetryMetadata, envelope: Record)
    ensures var (topics', reply) := Delivered(opts, topics, partition, m, envelope);
      reply.Success? ==> topics'.Keys == topics.Keys + {reply.value.topic} && m.originalTopic in topics
  {
    hide AppendTo, NextOffset, ValidTopicName, Destination;
  }

  lemma NackKeys(opts: RetryOptions, topics: TopicMap, visibility: map<Key, Visibility>, n: NackRequest,
                 start: nat, now: Millis)
    requires opts.Valid() && Formed(opts, topics)
    ensures var (topics', reply) := Nacked(opts, topics, visibility, n, start, now);
      reply.Success? ==> topics'.Keys == topics.Keys + {reply.value.topic}
  {
    hide Formed, EncodedRetryRecord, Delivered, NackSource, Attempted, Addressed, AddressedRecord;
    NackFindsRecord(opts, topics, visibility, n, start);
    if NackSource(topics, visibility, n, start).Success? {
      AttemptedMessage(opts, topics, n);
      var counted := Counted(opts, Attempted(n, AddressedRecord(topics, n)).value, n.reason, now);
      if EncodedRetryRecord(counted).Ok? {
        DeliveredKeys(opts, topics, n.partition, counted.retry.value, EncodedRetryRecord(counted).value);
      }
    }
  }

  lemma NackOriginal(opts: RetryOptions, topics: TopicMap, visibility: map<Key, Visibility>, n: NackRequest,
                     now: Millis)
    requires opts.Valid() && Formed(opts, topics) && NackAccepted(opts, topics, visibility, n, now)
    ensures OriginalOf(n.topic) in topics
  {
    hide Formed, Attempted, Addressed, EncodedRetryRecord, LogAt, NextOffset, AddressedRecord;
    AttemptedMessage(opts, topics, n);
  }

  /** The topic a nack may create has as many partitions as the original one. */
  lemma NackKeepsAddressable(opts: RetryOptions, topics: TopicMap, visibility: map<Key, Visibility>, n: NackRequest,
                             start: nat, now: Millis)
    requires opts.Valid() && Formed(opts, topics)
    ensures NackAccepted(opts, topics, visibility, n, now) ==> OriginalOf(n.topic) in topics
    ensures Addressable(Nacked(opts, topics, visibility, n, start, now).0) <==>
      && Addressable(topics)
      && (NackAccepted(opts, topics, visibility, n, now) ==> |topics[OriginalOf(n.topic)]| <= TWO_31)
  {
    hide Formed, Nacked, Addressed, AttemptsOf, NackAccepted, HoldsRetry, OriginalOf, IsRetryTopic, IsDlqTopic;
    NackSucceedsIff(opts, topics, visibility, n, start, now);
    if NackAccepted(opts, topics, visibility, n, now) {
      var (topics', reply) := Nacked(opts, topics, visibility, n, start, now);
      NackOriginal(opts, topics, visibility, n, now);
      NackKeys(opts, topics, visibility, n, start, now);
      NackKeepsFormed(opts, topics, visibility, n, start, now);
      NackCounts(opts, topics, visibility, n, start, now);
      var d, original := reply.value.topic, OriginalOf(n.topic);
      OriginalOfInternal(RETRY_PREFIX, original);
      OriginalOfInternal(DLQ_PREFIX, original);
      InternalOriginal(opts, topics', d);
      assert PartitionsExtend(topics[original], topics'[original]);
      SameCounts(topics, topics', d);
    }
  }

  lemma SameCounts(topics: TopicMap, topics': TopicMap, d: bytes)
    requires Extends(topics, topics') && topics'.Keys == topics.Keys + {d} && IsInternalTopic(d)
    ensures Addressable(topics') <==> Addressable(topics) && |topics'[d]| <= TWO_31
  {
    hide IsRetryTopic, IsDlqTopic;
    forall t | t in topics ensures |topics[t]| == |topics'[t]| {
      assert PartitionsExtend(topics[t], topics'[t]);
    }
  }

  /** After a nack Start accepts the logs if and only if it would have before, the nack creates no topic
      whose partition ids do not fit, and it stores no deadline 0: everything here is known before it. */
  lemma NackThenStart(opts: RetryOptions, topics: TopicMap, visibility: map<Key, Visibility>, n: NackRequest,
                      start: nat, now: Millis, routes: Routes)
    requires opts.Valid() && Formed(opts, topics)
    ensures NackAccepted(opts, topics, visibility, n, now) ==> Addressed(topics, n) && OriginalOf(n.topic) in topics
    ensures StartAccepts(Nacked(opts, topics, visibility, n, start, now).0, routes) <==>
      && StartAccepts(topics, routes)
      && (NackAccepted(opts, topics, visibility, n, now) ==>
            && |topics[OriginalOf(n.topic)]| <= TWO_31
            && (AttemptsOf(topics, n) == opts.maxRetries || DeadlinePositive(opts, now)))
  {
    hide Formed, Nacked, StartAccepts, Addressable, Dated, Extends, NackAccepted, DeadlinePositive, AttemptsOf,
      Addressed, OriginalOf;
    var topics' := Nacked(opts, topics, visibility, n, start, now).0;
    NackKeepsFormed(opts, topics, visibility, n, start, now);
    NackKeepsDated(opts, topics, visibility, n, start, now);
    NackKeepsAddressable(opts, topics, visibility, n, start, now);
    SameExtends(topics);
    SameExtends(topics');
    WrittenLogsStart(opts, topics, topics, routes);
    WrittenLogsStart(opts, topics', topics', routes);
  }
}
