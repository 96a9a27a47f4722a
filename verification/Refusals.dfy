/** How the broker says no: which of its error codes each refused request gets. */
module Refusals {
  import opened Basics
  import opened RecordBatches
  import opened PartitionLogs
  import opened Protocol
  import opened RetryCodec
  import opened RetrySchedulers
  import opened Topics
  import opened Broker
  import opened RetryLineage
  import opened NackProofs
  import opened FetchProofs

  /** A nack is refused as unknown if and only if there is no such partition, as out of range if and only
      if there is no such offset, and as invalid if and only if it names a dead letter, or a record that
      is there and cannot be retried. It never ends in an internal error. */
  lemma NackRefusedIff(opts: RetryOptions, topics: TopicMap, visibility: map<Key, Visibility>, n: NackRequest,
                       start: nat, now: Millis)
    requires opts.Valid() && Formed(opts, topics)
    ensures var r := Nacked(opts, topics, visibility, n, start, now).1;
      var there := HasPartition(topics, n.topic, n.partition);
      && (r == Failure(TopicNotFound) <==> !IsDlqTopic(n.topic) && n.offset >= 0 && !there)
      && (r == Failure(OffsetOutOfRange) <==>
            !IsDlqTopic(n.topic) && (n.offset < 0 || (there && n.offset >= NextOffset(topics[n.topic][n.partition]))))
      && (r == Failure(InvalidRequest) <==>
            || IsDlqTopic(n.topic)
            || (Addressed(topics, n) && !NackAccepted(opts, topics, visibility, n, now)))
      && (r.Failure? ==> r.code == TopicNotFound || r.code == OffsetOutOfRange || r.code == InvalidRequest)
  {
    hide Formed, Nacked, NackAccepted, FlatRecords, IsDlqTopic;
    NackSucceedsIff(opts, topics, visibility, n, start, now);
    if IsDlqTopic(n.topic) || !Addressed(topics, n) {
      NotAddressed(opts, topics, visibility, n, start, now);
    } else {
      AddressedRefusal(opts, topics, visibility, n, start, now);
    }
  }

  lemma NotAddressed(opts: RetryOptions, topics: TopicMap, visibility: map<Key, Visibility>, n: NackRequest,
                     start: nat, now: Millis)
    requires opts.Valid() && (IsDlqTopic(n.topic) || !Addressed(topics, n))
    ensures Nacked(opts, topics, visibility, n, start, now).1 ==
      Failure(if IsDlqTopic(n.topic) then InvalidRequest
              else if n.offset < 0 then OffsetOutOfRange
              else if !HasPartition(topics, n.topic, n.partition) then TopicNotFound else OffsetOutOfRange)
  {
    hide FlatRecords, IsDlqTopic;
  }

  lemma AddressedRefusal(opts: RetryOptions, topics: TopicMap, visibility: map<Key, Visibility>, n: NackRequest,
                         start: nat, now: Millis)
    requires opts.Valid() && Formed(opts, topics) && Addressed(topics, n) && !IsDlqTopic(n.topic)
    ensures var r := Nacked(opts, topics, visibility, n, start, now).1;
      r.Failure? ==> r.code == InvalidRequest
  {
    hide Formed, EncodedRetryRecord, Delivered, Attempted, AddressedRecord, ReadLog, FlatRecords, IsDlqTopic,
      IsRetryTopic, SafeName;
    NackFindsRecord(opts, topics, visibility, n, start);
    if Retryable(topics, visibility, n) {
      AttemptedMessage(opts, topics, n);
      var counted := Counted(opts, Attempted(n, AddressedRecord(topics, n)).value, n.reason, now);
      EnvelopeEncodableIff(counted);
      if EncodedRetryRecord(counted).Ok? {
        DeliveredRefusal(opts, topics, n.partition, counted);
      }
    }
  }

  lemma DeliveredRefusal(opts: RetryOptions, topics: TopicMap, partition: i32, r: ProtocolRecord)
    requires Formed(opts, topics) && EncodedRetryRecord(r).Ok? && r.retry.Some?
    requires r.retry.value.originalTopic in topics && SafeName(r.retry.value.originalTopic)
    requires 0 <= partition < |topics[r.retry.value.originalTopic]|
    ensures var reply := Delivered(opts, topics, partition, r.retry.value, EncodedRetryRecord(r).value).1;
      reply.Failure? ==> reply.code == InvalidRequest
  {
    hide Formed, EncodedRetryRecord, Created, FlatRecords, Destination, LogAt, StampedAll;
    DestinationCreated(opts, topics, r.retry.value, partition);
    EnvelopeBatchFits(r);
  }

  /** A fetch is refused as out of range if and only if its offset is negative or past the end of the log
      (or at the end, should a retry log show more than it holds), as unknown if and only if there is no
      such partition, and as invalid only for a budget of no bytes or one too small for a record that is
      there. It never ends in an internal error. */
  lemma FetchRefusedIff(opts: RetryOptions, topics: TopicMap, visibility: map<Key, Visibility>, f: FetchRequest,
                        version: u16, start: nat)
    requires Formed(opts, topics)
    ensures var r := FetchedFrom(topics, visibility, f, version, start);
      var there := HasPartition(topics, f.topic, f.partition);
      var end := NextOffset(LogAt(topics, Key(f.topic, f.partition)));
      && (r == Failure(OffsetOutOfRange) <==>
            || f.offset < 0
            || (f.maxBytes > 0 && there && f.offset > end)
            || (f.maxBytes > 0 && there && f.offset == end && IsRetryTopic(f.topic)
                && end < At(visibility, Key(f.topic, f.partition)).end))
      && (r == Failure(TopicNotFound) <==> f.offset >= 0 && f.maxBytes > 0 && !there)
      && (f.offset >= 0 && f.maxBytes == 0 ==> r == Failure(InvalidRequest))
      && (r.Failure? && r.code != OffsetOutOfRange && r.code != TopicNotFound ==>
            r.code == InvalidRequest && (f.maxBytes == 0 || Readable(topics, visibility, f)))
  {
    hide Formed, FlatRecords, IndexOf, BaseOf, Within, Served, IsRetryTopic, IsDlqTopic, DecodedRetryRecord;
    if Readable(topics, visibility, f) {
      if IsInternalTopic(f.topic) {
        InternalFetchIff(opts, topics, visibility, f, version, start);
      } else {
        var log := topics[f.topic][f.partition];
        OrdinaryServed(log[IndexOf(log, f.offset)], f.maxBytes, version);
      }
    }
  }

  /** A topic can be created if and only if its name is a good one, it gets partitions, and no topic of
      that name has another number of them; it then has that number, all empty if it is new, and every
      other topic is as it was. Anything else is an invalid request and changes nothing. */
  lemma TopicCreatedIff(topics: TopicMap, topic: bytes, count: u32)
    ensures var (topics', r) := TopicCreated(topics, topic, count);
      && (r.Success? <==> SafeName(topic) && count > 0 && (topic in topics ==> |topics[topic]| == count))
      && (r.Failure? ==> r.code == InvalidRequest && topics' == topics)
      && (r.Success? ==>
            && topic in topics' && |topics'[topic]| == count
            && (topic in topics ==> topics' == topics)
            && (topic !in topics ==> forall p :: 0 <= p < count ==> topics'[topic][p] == [])
            && topics'.Keys == topics.Keys + {topic}
            && forall other :: other in topics && other != topic ==> topics'[other] == topics[other])
  {
    hide SafeName, IsRetryTopic, IsDlqTopic;
    if SafeName(topic) {
      SafeNameNotInternal(topic);
    }
  }
}
