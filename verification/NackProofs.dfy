/** A nack adds one well-formed, correctly rooted record to the retry or dead-letter log of the
    original topic, and every chain of nacks ends. */
module NackProofs {
  import opened Basics
  import opened Records
  import opened RecordBatches
  import opened PartitionLogs
  import opened Protocol
  import opened RetryCodec
  import opened RetrySchedulers
  import opened Topics
  import opened Broker
  import opened RetryLineage

  // ---- The record a nack is about ----

  lemma FormedBatch(opts: RetryOptions, topics: TopicMap, topic: bytes, partition: nat, i: nat)
    requires Formed(opts, topics) && topic in topics && partition < |topics[topic]| && i < |topics[topic][partition]|
    ensures BatchFormed(opts, topic, partition, topics[topic][partition][i])
  {
    hide BatchFormed, ValidTopicName;
    assert TopicFormed(opts, topics, topic) && LogFormed(opts, topic, partition, topics[topic][partition]);
  }

  /** No read of a log within the retry budget can fail for size, whatever batches it passes. */
  lemma BudgetHolds(opts: RetryOptions, topics: TopicMap, topic: bytes, partition: nat, offset: i64, start: nat)
    requires Formed(opts, topics) && topic in topics && partition < |topics[topic]|
    requires 0 <= offset < NextOffset(topics[topic][partition])
    ensures var log := topics[topic][partition];
      ReadLog(log, offset, MAX_RETRY_BATCH_BYTES, start)
        == Ok(Batch(BaseOf(log, IndexOf(log, offset)), log[IndexOf(log, offset)]))
  {
    hide Formed, NextOffset, BaseOf, IndexOf, EnvelopeFormed, BatchBytesOf;
    var log := topics[topic][partition];
    var i := IndexOf(log, offset);
    forall m | Min(start, i) <= m <= i ensures BatchBytesOf(log[m]) <= MAX_RETRY_BATCH_BYTES {
      FormedBatch(opts, topics, topic, partition, m);
    }
  }

  predicate Addressed(topics: TopicMap, n: NackRequest) {
    HasPartition(topics, n.topic, n.partition) && 0 <= n.offset < NextOffset(topics[n.topic][n.partition])
  }

  predicate Retryable(topics: TopicMap, visibility: map<Key, Visibility>, n: NackRequest) {
    && Addressed(topics, n) && !IsDlqTopic(n.topic)
    && (IsRetryTopic(n.topic) ==> n.offset < At(visibility, Key(n.topic, n.partition)).end)
  }

  function AddressedRecord(topics: TopicMap, n: NackRequest): Record
    requires Addressed(topics, n)
  {
    FlatRecords(topics[n.topic][n.partition])[n.offset]
  }

  lemma AddressedInBatch(topics: TopicMap, n: NackRequest)
    requires Addressed(topics, n)
    ensures var log := topics[n.topic][n.partition];
      var i := IndexOf(log, n.offset);
      AddressedRecord(topics, n) == log[i][n.offset - BaseOf(log, i)]
  {
    hide FlatRecords, IndexOf, BaseOf;
    var log := topics[n.topic][n.partition];
    BatchSpan(log, IndexOf(log, n.offset));
  }

  /** A nack reaches exactly the record it names: it gets past the read if and only if the record
      exists, is not a dead letter, and is already visible if it is a retry. */
  lemma NackFindsRecord(opts: RetryOptions, topics: TopicMap, visibility: map<Key, Visibility>, n: NackRequest,
                        start: nat)
    requires Formed(opts, topics)
    ensures NackSource(topics, visibility, n, start).Success? <==> Retryable(topics, visibility, n)
    ensures Retryable(topics, visibility, n) ==>
      NackSource(topics, visibility, n, start) == Success(AddressedRecord(topics, n))
  {
    hide Formed, FlatRecords, BaseOf, IndexOf, ReadLog;
    if Retryable(topics, visibility, n) {
      BudgetHolds(opts, topics, n.topic, n.partition, n.offset, start);
      AddressedInBatch(topics, n);
    }
  }

  // ---- The message and its count ----

  /** The attempts already counted for a record: none for a message of an ordinary topic. */
  function AttemptsOf(topics: TopicMap, n: NackRequest): nat
    requires Addressed(topics, n)
  {
    if !IsRetryTopic(n.topic) then 0
    else
      var decoded := DecodedRetryRecord(AddressedRecord(topics, n));
      if decoded.Ok? then decoded.value.retry.value.retryCount else 0
  }

  lemma AddressedFormed(opts: RetryOptions, topics: TopicMap, n: NackRequest)
    requires Formed(opts, topics) && Addressed(topics, n) && IsRetryTopic(n.topic)
    ensures EnvelopeFormed(opts, n.topic, n.partition, AddressedRecord(topics, n))
  {
    hide Formed, EnvelopeFormed, FlatRecords, IndexOf, BaseOf, BatchBytesOf;
    var log := topics[n.topic][n.partition];
    FormedBatch(opts, topics, n.topic, n.partition, IndexOf(log, n.offset));
    AddressedInBatch(topics, n);
  }

  lemma AddressedRooted(topics: TopicMap, n: NackRequest)
    requires Rooted(topics) && Addressed(topics, n) && IsRetryTopic(n.topic)
    ensures EnvelopeRooted(topics, n.topic, n.partition, AddressedRecord(topics, n))
  {
    hide EnvelopeRooted, FlatRecords, IndexOf, BaseOf;
    var log := topics[n.topic][n.partition];
    assert TopicRooted(topics, n.topic) && LogRooted(topics, n.topic, n.partition, log);
    AddressedInBatch(topics, n);
  }

  lemma RetryNameSplits(topic: bytes)
    requires IsRetryTopic(topic)
    ensures topic == RETRY_PREFIX + OriginalOf(topic)
  {
  }

  /** What a nack of a reachable record works with: the message, the attempts so far, and the
      original topic, which exists and is not itself internal. */
  lemma AttemptedMessage(opts: RetryOptions, topics: TopicMap, n: NackRequest)
    requires opts.Valid() && Formed(opts, topics) && Addressed(topics, n) && !IsDlqTopic(n.topic)
    ensures Attempted(n, AddressedRecord(topics, n)).Success?
    ensures var r := Attempted(n, AddressedRecord(topics, n)).value;
      var m := r.retry.value;
      && m.retryCount == AttemptsOf(topics, n) <= opts.maxRetries
      && m.originalTopic == OriginalOf(n.topic) && m.originalPartition == n.partition
      && m.originalTopic in topics && |topics[m.originalTopic]| == |topics[n.topic]|
      && SafeName(m.originalTopic)
  {
    hide FlatRecords, DecodedRetryRecord, SafeName, LogFormed;
    assert TopicFormed(opts, topics, n.topic);
    if IsRetryTopic(n.topic) {
      AddressedFormed(opts, topics, n);
      RetryNameSplits(n.topic);
    }
  }

  lemma AttemptedIsCopy(opts: RetryOptions, topics: TopicMap, n: NackRequest)
    requires opts.Valid() && Formed(opts, topics) && Rooted(topics) && Addressed(topics, n) && !IsDlqTopic(n.topic)
    ensures Attempted(n, AddressedRecord(topics, n)).Success?
    ensures var r := Attempted(n, AddressedRecord(topics, n)).value;
      OriginalOf(n.topic) in topics && 0 <= n.partition < |topics[OriginalOf(n.topic)]|
      && CopyOf(topics[OriginalOf(n.topic)][n.partition], r)
  {
    hide FlatRecords, DecodedRetryRecord, Formed, Rooted;
    AttemptedMessage(opts, topics, n);
    if IsRetryTopic(n.topic) {
      AddressedRooted(topics, n);
    }
  }

  // ---- The envelope ----

  lemma DestinationNames(opts: RetryOptions, m: RetryMetadata)
    ensures var d := Destination(opts, m);
      && OriginalOf(d) == m.originalTopic && IsInternalTopic(d)
      && (IsRetryTopic(d) <==> !DeadLetter(opts, m)) && (IsDlqTopic(d) <==> DeadLetter(opts, m))
  {
    OriginalOfInternal(RETRY_PREFIX, m.originalTopic);
    OriginalOfInternal(DLQ_PREFIX, m.originalTopic);
  }

  /** The next attempt has the form its destination asks for. */
  lemma NextAttemptFormed(opts: RetryOptions, m: RetryMetadata, reason: bytes, now: Millis)
    requires opts.Valid() && m.retryCount <= opts.maxRetries
    ensures var next := NextAttempt(opts, m, reason, now);
      MetadataFormed(opts, Destination(opts, next), m.originalPartition, next)
  {
    DestinationNames(opts, NextAttempt(opts, m, reason, now));
  }

  lemma StampedOne(r: Record)
    ensures StampedAll([r]) == [Stamped(r)]
  {
    hide Stamped;
  }

  lemma EnvelopeBatchFormed(opts: RetryOptions, topic: bytes, partition: int, r: ProtocolRecord)
    requires IsInternalTopic(topic) && EncodedRetryRecord(r).Ok? && r.retry.Some?
    ensures BatchFormed(opts, topic, partition, StampedAll([EncodedRetryRecord(r).value]))
       <==> MetadataFormed(opts, topic, partition, r.retry.value)
  {
    hide EncodedRetryRecord, DecodedRetryRecord, MetadataFormed, PayloadSize, Stamped, StampedAll;
    var e := EncodedRetryRecord(r).value;
    EnvelopeBatchFits(r);
    RetryRecordRoundTrip(r);
    StampedOne(e);
    StampingKeepsEncoding([e]);
  }

  lemma EnvelopeIsRooted(topics: TopicMap, topic: bytes, partition: nat, r: ProtocolRecord)
    requires EncodedRetryRecord(r).Ok? && r.retry.Some?
    requires OriginalOf(topic) in topics && partition < |topics[OriginalOf(topic)]|
    requires CopyOf(topics[OriginalOf(topic)][partition], r)
    ensures forall k :: 0 <= k < 1 ==>
      EnvelopeRooted(topics, topic, partition, StampedAll([EncodedRetryRecord(r).value])[k])
  {
    hide EncodedRetryRecord, DecodedRetryRecord, CopyOf, Stamped, StampedAll;
    RetryRecordRoundTrip(r);
    StampedOne(EncodedRetryRecord(r).value);
  }

  // ---- Delivery ----

  lemma DeliveredKeepsFormed(opts: RetryOptions, topics: TopicMap, partition: i32, r: ProtocolRecord)
    requires Formed(opts, topics) && EncodedRetryRecord(r).Ok? && r.retry.Some?
    requires MetadataFormed(opts, Destination(opts, r.retry.value), partition, r.retry.value)
    ensures var topics' := Delivered(opts, topics, partition, r.retry.value, EncodedRetryRecord(r).value).0;
      Formed(opts, topics') && Extends(topics, topics')
  {
    hide Formed, EncodedRetryRecord, MetadataFormed, BatchFormed, NextOffset, EncodedPayload, StampedAll, Created,
      Extends;
    var m := r.retry.value;
    var d := Destination(opts, m);
    DestinationNames(opts, m);
    SameExtends(topics);
    if m.originalTopic in topics {
      CountFits(opts, topics, m.originalTopic);
      var count := |topics[m.originalTopic]|;
      CreatedKeepsFormed(opts, topics, d, count);
      CreatedExtends(topics, d, count);
      var created := Created(topics, d, count);
      var envelope := [EncodedRetryRecord(r).value];
      if created.Ok? && HasPartition(created.value, d, partition)
         && AppendTo(created.value[d][partition], envelope).Ok? {
        var batch := StampedAll(envelope);
        var after := WithLog(created.value, d, partition, created.value[d][partition] + [batch]);
        WithLogExtends(created.value, d, partition, batch);
        ExtendsTransitive(topics, created.value, after);
        EnvelopeBatchFormed(opts, d, partition, r);
        AddedKeepsFormed(opts, created.value, d, partition, batch);
      }
    }
  }

  lemma SameExtends(topics: TopicMap)
    ensures Extends(topics, topics)
  {
  }

  lemma CountFits(opts: RetryOptions, topics: TopicMap, topic: bytes)
    requires Formed(opts, topics) && topic in topics
    ensures |topics[topic]| % TWO_32 == |topics[topic]|
  {
    hide LogFormed, ValidTopicName;
    assert TopicFormed(opts, topics, topic);
  }

  lemma DeliveredKeepsRooted(opts: RetryOptions, topics: TopicMap, partition: i32, r: ProtocolRecord)
    requires Formed(opts, topics) && Rooted(topics) && EncodedRetryRecord(r).Ok? && r.retry.Some?
    requires r.retry.value.originalTopic in topics && 0 <= partition < |topics[r.retry.value.originalTopic]|
    requires CopyOf(topics[r.retry.value.originalTopic][partition], r)
    ensures Rooted(Delivered(opts, topics, partition, r.retry.value, EncodedRetryRecord(r).value).0)
  {
    hide Formed, Rooted, EncodedRetryRecord, NextOffset, EncodedPayload, StampedAll, Created, Extends, CopyOf,
      EnvelopeRooted;
    var m := r.retry.value;
    var d := Destination(opts, m);
    DestinationNames(opts, m);
    CountFits(opts, topics, m.originalTopic);
    var count := |topics[m.originalTopic]|;
    CreatedKeepsRooted(topics, d, count);
    CreatedExtends(topics, d, count);
    var created := Created(topics, d, count);
    if created.Ok? && HasPartition(created.value, d, partition) {
      var batch := StampedAll([EncodedRetryRecord(r).value]);
      OriginalKeptByCreation(topics, d, count, m.originalTopic);
      EnvelopeIsRooted(created.value, d, partition, r);
      AddedKeepsRooted(created.value, d, partition, batch);
    }
  }

  lemma OriginalKeptByCreation(topics: TopicMap, topic: bytes, count: u32, other: bytes)
    requires other in topics
    ensures Created(topics, topic, count).Ok? ==>
      other in Created(topics, topic, count).value && Created(topics, topic, count).value[other] == topics[other]
  {
    hide ValidTopicName;
  }

  // ---- Nack ----

  /** Whatever a nack answers, it keeps the form of every log and only appends. */
  lemma NackKeepsFormed(opts: RetryOptions, topics: TopicMap, visibility: map<Key, Visibility>, n: NackRequest,
                        start: nat, now: Millis)
    requires opts.Valid() && Formed(opts, topics)
    ensures var topics' := Nacked(opts, topics, visibility, n, start, now).0;
      Formed(opts, topics') && Extends(topics, topics')
  {
    hide Formed, EncodedRetryRecord, MetadataFormed, Delivered, NackSource, Attempted, Addressed, AddressedRecord,
      Extends;
    SameExtends(topics);
    NackFindsRecord(opts, topics, visibility, n, start);
    if NackSource(topics, visibility, n, start).Success? {
      AttemptedMessage(opts, topics, n);
      var r := Attempted(n, AddressedRecord(topics, n)).value;
      var counted := Counted(opts, r, n.reason, now);
      if EncodedRetryRecord(counted).Ok? {
        NextAttemptFormed(opts, r.retry.value, n.reason, now);
        DeliveredKeepsFormed(opts, topics, n.partition, counted);
      }
    }
  }

  /** The message a nack is about, with one more attempt counted. */
  function CountedMessage(opts: RetryOptions, topics: TopicMap, n: NackRequest, now: Millis): Reply<ProtocolRecord>
    requires opts.Valid() && Addressed(topics, n)
  {
    var r :- Attempted(n, AddressedRecord(topics, n));
    Success(Counted(opts, r, n.reason, now))
  }

  /** What decides a nack, before it: the record can be retried, its envelope can be encoded, and the
      log it goes to has an offset left. */
  predicate NackAccepted(opts: RetryOptions, topics: TopicMap, visibility: map<Key, Visibility>, n: NackRequest,
                         now: Millis)
    requires opts.Valid()
  {
    Retryable(topics, visibility, n) &&
    var counted := CountedMessage(opts, topics, n, now);
    && counted.Success? && counted.value.retry.Some? && EncodedRetryRecord(counted.value).Ok?
    && NextOffset(LogAt(topics, Key(Destination(opts, counted.value.retry.value), n.partition))) < MAX_OFFSET
  }

  lemma DestinationCreated(opts: RetryOptions, topics: TopicMap, m: RetryMetadata, partition: i32)
    requires Formed(opts, topics) && m.originalTopic in topics && SafeName(m.originalTopic)
    requires 0 <= partition < |topics[m.originalTopic]|
    ensures var d := Destination(opts, m);
      var created := Created(topics, d, |topics[m.originalTopic]| % TWO_32);
      created.Ok? && HasPartition(created.value, d, partition)
      && created.value[d][partition] == LogAt(topics, Key(d, partition))
      && (d in topics ==> created.value == topics)
  {
    hide LogFormed, SafeName, DeadLetter;
    var d := Destination(opts, m);
    DestinationNames(opts, m);
    CountFits(opts, topics, m.originalTopic);
    assert TopicFormed(opts, topics, m.originalTopic);
    if d in topics { assert TopicFormed(opts, topics, d); }
  }

  lemma DeliveredIff(opts: RetryOptions, topics: TopicMap, partition: i32, r: ProtocolRecord)
    requires Formed(opts, topics) && EncodedRetryRecord(r).Ok? && r.retry.Some?
    requires r.retry.value.originalTopic in topics && SafeName(r.retry.value.originalTopic)
    requires 0 <= partition < |topics[r.retry.value.originalTopic]|
    ensures var (topics', reply) := Delivered(opts, topics, partition, r.retry.value, EncodedRetryRecord(r).value);
      && (reply.Success? <==> NextOffset(LogAt(topics, Key(Destination(opts, r.retry.value), partition))) < MAX_OFFSET)
      && (reply.Failure? ==> topics' == topics)
  {
    hide Formed, EncodedRetryRecord, Created, FlatRecords, EncodedPayload, Destination, LogAt, StampedAll;
    var m := r.retry.value;
    DestinationCreated(opts, topics, m, partition);
    EnvelopeBatchFits(r);
    var k := Key(Destination(opts, m), partition);
    if NextOffset(LogAt(topics, k)) >= MAX_OFFSET {
      FullLogExists(topics, k);
    }
  }

  lemma FullLogExists(topics: TopicMap, k: Key)
    requires NextOffset(LogAt(topics, k)) > 0
    ensures k.topic in topics
  {
    EmptyLog();
  }

  /** A nack succeeds if and only if the record can be retried, its envelope fits and the destination has
      an offset left; otherwise it changes nothing. */
  lemma NackSucceedsIff(opts: RetryOptions, topics: TopicMap, visibility: map<Key, Visibility>, n: NackRequest,
                        start: nat, now: Millis)
    requires opts.Valid() && Formed(opts, topics)
    ensures var (topics', reply) := Nacked(opts, topics, visibility, n, start, now);
      && (reply.Success? <==> NackAccepted(opts, topics, visibility, n, now))
      && (reply.Failure? ==> topics' == topics)
  {
    hide Formed, EncodedRetryRecord, Delivered, NackSource, Attempted, Addressed, AddressedRecord, NextOffset, LogAt,
      SafeName;
    NackFindsRecord(opts, topics, visibility, n, start);
    if Retryable(topics, visibility, n) {
      AttemptedMessage(opts, topics, n);
      AddressedPartition(topics, n);
      var counted := Counted(opts, Attempted(n, AddressedRecord(topics, n)).value, n.reason, now);
      if EncodedRetryRecord(counted).Ok? {
        DeliveredIff(opts, topics, n.partition, counted);
      }
    }
  }

  lemma AddressedPartition(topics: TopicMap, n: NackRequest)
    requires Addressed(topics, n)
    ensures n.topic in topics && 0 <= n.partition < |topics[n.topic]|
  {
    hide NextOffset;
  }

  lemma DeliveredReply(opts: RetryOptions, topics: TopicMap, partition: i32, m: RetryMetadata, envelope: Record)
    ensures var reply := Delivered(opts, topics, partition, m, envelope).1;
      reply.Success? ==>
        && reply.value.retry == m && reply.value.deadLetter == DeadLetter(opts, m)
        && reply.value.topic == Destination(opts, m) && reply.value.partition == partition
  {
    hide Created, AppendTo, NextOffset;
  }

  /** A nack keeps every internal record a copy of its original. */
  lemma NackKeepsRooted(opts: RetryOptions, topics: TopicMap, visibility: map<Key, Visibility>, n: NackRequest,
                        start: nat, now: Millis)
    requires opts.Valid() && Formed(opts, topics) && Rooted(topics)
    ensures Rooted(Nacked(opts, topics, visibility, n, start, now).0)
  {
    hide Formed, Rooted, EncodedRetryRecord, Delivered, NackSource, Attempted, Addressed, AddressedRecord, NextOffset;
    NackFindsRecord(opts, topics, visibility, n, start);
    if NackSource(topics, visibility, n, start).Success? {
      AttemptedMessage(opts, topics, n);
      AttemptedIsCopy(opts, topics, n);
      var r := Attempted(n, AddressedRecord(topics, n)).value;
      var counted := Counted(opts, r, n.reason, now);
      if EncodedRetryRecord(counted).Ok? {
        DeliveredKeepsRooted(opts, topics, n.partition, counted);
      }
    }
  }

  /** A successful nack counts one attempt more than its source had, sends the message to the retry
      topic up to the maximum and to the dead-letter topic beyond, and answers with the offset the
      record now has. */
  lemma NackCounts(opts: RetryOptions, topics: TopicMap, visibility: map<Key, Visibility>, n: NackRequest,
                   start: nat, now: Millis)
    requires opts.Valid() && Formed(opts, topics)
    ensures var (topics', reply) := Nacked(opts, topics, visibility, n, start, now);
      reply.Success? ==>
        && Addressed(topics, n) && AttemptsOf(topics, n) <= opts.maxRetries
        && var done := reply.value;
           && done.retry.retryCount == AttemptsOf(topics, n) + 1
           && (done.deadLetter <==> AttemptsOf(topics, n) == opts.maxRetries)
           && done.topic == (if done.deadLetter then DLQ_PREFIX else RETRY_PREFIX) + OriginalOf(n.topic)
           && done.partition == n.partition
           && done.retry.failureReason == n.reason
           && done.retry.nextVisibleTime == (if done.deadLetter then 0 else now + opts.delay)
  {
    hide Formed, EncodedRetryRecord, Delivered, NackSource, Attempted, AddressedRecord, Addressed, AttemptsOf;
    NackFindsRecord(opts, topics, visibility, n, start);
    if NackSource(topics, visibility, n, start).Success? {
      AttemptedMessage(opts, topics, n);
      var r := Attempted(n, AddressedRecord(topics, n)).value;
      var counted := Counted(opts, r, n.reason, now);
      if EncodedRetryRecord(counted).Ok? {
        DeliveredReply(opts, topics, n.partition, counted.retry.value, EncodedRetryRecord(counted).value);
      }
    }
  }

  // ---- Chains of nacks ----

  predicate HoldsRetry(topics: TopicMap, topic: bytes, partition: i32, offset: int, m: RetryMetadata) {
    && HasPartition(topics, topic, partition) && 0 <= offset < NextOffset(topics[topic][partition])
    && var decoded := DecodedRetryRecord(FlatRecords(topics[topic][partition])[offset]);
       decoded.Ok? && decoded.value.retry.value == m
  }

  /** The offset a nack answers with holds the record it made. */
  lemma DeliveredIsStored(opts: RetryOptions, topics: TopicMap, partition: i32, r: ProtocolRecord)
    requires EncodedRetryRecord(r).Ok? && r.retry.Some?
    ensures var (topics', reply) := Delivered(opts, topics, partition, r.retry.value, EncodedRetryRecord(r).value);
      reply.Success? ==>
        HoldsRetry(topics', reply.value.topic, reply.value.partition, reply.value.offset, r.retry.value)
  {
    hide EncodedRetryRecord, DecodedRetryRecord, Created, FlatRecords, EncodedPayload, Stamped, StampedAll;
    var e := EncodedRetryRecord(r).value;
    var (topics', reply) := Delivered(opts, topics, partition, r.retry.value, e);
    if reply.Success? {
      RetryRecordRoundTrip(r);
      StampedOne(e);
      var created := Created(topics, reply.value.topic, |topics[r.retry.value.originalTopic]| % TWO_32).value;
      FlatSnoc(created[reply.value.topic][partition], [Stamped(e)]);
    }
  }

  lemma NackStores(opts: RetryOptions, topics: TopicMap, visibility: map<Key, Visibility>, n: NackRequest,
                   start: nat, now: Millis)
    requires opts.Valid()
    ensures var (topics', reply) := Nacked(opts, topics, visibility, n, start, now);
      reply.Success? ==>
        HoldsRetry(topics', reply.value.topic, reply.value.partition, reply.value.offset, reply.value.retry)
  {
    hide EncodedRetryRecord, Delivered, NackSource, Attempted, HoldsRetry;
    var (topics', reply) := Nacked(opts, topics, visibility, n, start, now);
    if reply.Success? {
      var r := Attempted(n, NackSource(topics, visibility, n, start).value).value;
      var counted := Counted(opts, r, n.reason, now);
      DeliveredIsStored(opts, topics, n.partition, counted);
      DeliveredReply(opts, topics, n.partition, counted.retry.value, EncodedRetryRecord(counted).value);
    }
  }

  lemma HoldsRetryStays(topics: TopicMap, topics': TopicMap, topic: bytes, partition: i32, offset: int,
                        m: RetryMetadata)
    requires Extends(topics, topics') && HoldsRetry(topics, topic, partition, offset, m)
    ensures HoldsRetry(topics', topic, partition, offset, m)
  {
    hide DecodedRetryRecord, FlatRecords;
    assert PartitionsExtend(topics[topic], topics'[topic]);
    FlatPrefix(topics[topic][partition], topics'[topic][partition]);
  }

  /** One successful nack, between the states of the topics around it. */
  datatype Link = Link(before: TopicMap, visibility: map<Key, Visibility>, request: NackRequest, start: nat,
                       now: Millis, after: TopicMap, done: NackDone)

  ghost predicate IsLink(opts: RetryOptions, l: Link)
    requires opts.Valid()
  {
    && Formed(opts, l.before)
    && Nacked(opts, l.before, l.visibility, l.request, l.start, l.now) == (l.after, Success(l.done))
  }

  /** The later nack is about the record the earlier one made, which is still where it was put. */
  ghost predicate Follows(l: Link, l': Link) {
    && l'.request.topic == l.done.topic && l'.request.partition == l.done.partition
       && l'.request.offset == l.done.offset
    && HoldsRetry(l'.before, l.done.topic, l.done.partition, l.done.offset, l.done.retry)
  }

  ghost predicate IsChain(opts: RetryOptions, links: seq<Link>)
    requires opts.Valid()
  {
    && (forall i :: 0 <= i < |links| ==> IsLink(opts, links[i]))
    && forall i, j :: 0 <= i < j < |links| && j == i + 1 ==> Follows(links[i], links[j])
  }

  lemma LinkCounts(opts: RetryOptions, l: Link)
    requires opts.Valid() && IsLink(opts, l)
    ensures Addressed(l.before, l.request) && AttemptsOf(l.before, l.request) <= opts.maxRetries
    ensures l.done.retry.retryCount == AttemptsOf(l.before, l.request) + 1
    ensures l.done.deadLetter <==> AttemptsOf(l.before, l.request) == opts.maxRetries
    ensures !l.done.deadLetter ==> IsRetryTopic(l.done.topic)
    ensures l.done.deadLetter ==> IsDlqTopic(l.done.topic)
    ensures !IsDlqTopic(l.request.topic)
    ensures l.done.topic == (if l.done.deadLetter then DLQ_PREFIX else RETRY_PREFIX) + OriginalOf(l.request.topic)
    ensures OriginalOf(l.done.topic) == OriginalOf(l.request.topic)
    ensures HoldsRetry(l.after, l.done.topic, l.done.partition, l.done.offset, l.done.retry)
  {
    hide Nacked, Formed, AttemptsOf, Addressed, HoldsRetry, IsRetryTopic, IsDlqTopic, OriginalOf;
    NackCounts(opts, l.before, l.visibility, l.request, l.start, l.now);
    NackStores(opts, l.before, l.visibility, l.request, l.start, l.now);
    OriginalOfInternal(RETRY_PREFIX, OriginalOf(l.request.topic));
    OriginalOfInternal(DLQ_PREFIX, OriginalOf(l.request.topic));
    NackNotDlq(opts, l.before, l.visibility, l.request, l.start, l.now);
  }

  lemma NackNotDlq(opts: RetryOptions, topics: TopicMap, visibility: map<Key, Visibility>, n: NackRequest,
                   start: nat, now: Millis)
    requires opts.Valid()
    ensures Nacked(opts, topics, visibility, n, start, now).1.Success? ==> !IsDlqTopic(n.topic)
  {
    hide EncodedRetryRecord, Delivered, Attempted, ReadLog, IsDlqTopic;
  }

  lemma FollowingCount(opts: RetryOptions, l: Link, l': Link)
    requires opts.Valid() && IsLink(opts, l) && IsLink(opts, l') && Follows(l, l')
    ensures Addressed(l.before, l.request) && Addressed(l'.before, l'.request)
    ensures AttemptsOf(l'.before, l'.request) == AttemptsOf(l.before, l.request) + 1
    ensures OriginalOf(l'.request.topic) == OriginalOf(l.request.topic)
    ensures !l.done.deadLetter
  {
    hide IsLink, DecodedRetryRecord, FlatRecords, IsRetryTopic, IsDlqTopic, OriginalOf;
    LinkCounts(opts, l);
    LinkCounts(opts, l');
  }

  lemma {:induction false} ChainCounts(opts: RetryOptions, links: seq<Link>, i: nat)
    requires opts.Valid() && IsChain(opts, links) && i < |links|
    ensures Addressed(links[0].before, links[0].request) && Addressed(links[i].before, links[i].request)
    ensures AttemptsOf(links[i].before, links[i].request) == AttemptsOf(links[0].before, links[0].request) + i
    ensures OriginalOf(links[i].request.topic) == OriginalOf(links[0].request.topic)
  {
    hide IsLink, Follows, Addressed, AttemptsOf, OriginalOf;
    if i == 0 {
      LinkCounts(opts, links[0]);
    } else {
      ChainCounts(opts, links, i - 1);
      FollowingCount(opts, links[i - 1], links[i]);
    }
  }

  /** Nacking a message, then the retry made of it, and so on, ends in the dead-letter topic: a chain
      that starts at an ordinary message counts its nacks, dead-letters exactly the one after the last
      retry, and has no more than maxRetries + 1 nacks; all but the last go to the retry topic. */
  lemma NackChainEnds(opts: RetryOptions, links: seq<Link>, i: nat)
    requires opts.Valid() && IsChain(opts, links) && i < |links|
    ensures |links| <= opts.maxRetries + 1
    ensures !IsRetryTopic(links[0].request.topic) ==>
      && links[i].done.retry.retryCount == i + 1
      && (links[i].done.deadLetter <==> i == opts.maxRetries)
      && links[i].done.topic == (if i == opts.maxRetries then DLQ_PREFIX else RETRY_PREFIX) + links[0].request.topic
  {
    hide IsLink, Follows, Addressed, AddressedRecord, HoldsRetry, DecodedRetryRecord, IsRetryTopic, IsDlqTopic,
      OriginalOf;
    ChainCounts(opts, links, |links| - 1);
    LinkCounts(opts, links[|links| - 1]);
    ChainCounts(opts, links, i);
    LinkCounts(opts, links[i]);
    LinkCounts(opts, links[0]);
    OrdinaryOriginal(links[0].request.topic);
  }

  lemma OrdinaryOriginal(topic: bytes)
    ensures !IsRetryTopic(topic) && !IsDlqTopic(topic) ==> OriginalOf(topic) == topic
  {
  }
}
