/** Runs of the broker in which a property fails that one might expect of it. */
module BrokerWitnesses {
  import opened Basics
  import opened Records
  import opened RecordBatches
  import opened PartitionLogs
  import opened Protocol
  import opened Frames
  import opened RetryCodec
  import opened RetrySchedulers
  import opened Topics
  import opened Broker
  import opened RetryLineage
  import opened NackProofs
  import opened RetryStart
  import opened BrokerLogs
  import opened BrokerRestarts
  import opened BrokerRuns

  /** "a" */
  const TOPIC: bytes := [97]
  const MESSAGE: ProtocolRecord := ProtocolRecord(0, [], [], Option.None)
  const FIRST_NACK: NackRequest := NackRequest(TOPIC, 0, 0, [])

  /** The topics once one message is stored. */
  function OneMessage(count: u32, r: ProtocolRecord): TopicMap
    requires count > 0
  {
    WithLog(map[TOPIC := EmptyPartitions(count)], TOPIC, 0, [StampedAll(ToStorage([r]))])
  }

  lemma OneMessageLog(count: u32, r: ProtocolRecord)
    requires count > 0 && WireSize([r]) <= MAX_FRAME_BYTES
    ensures NextOffset(OneMessage(count, r)[TOPIC][0]) == 1
    ensures Produced(map[TOPIC := EmptyPartitions(count)], TOPIC, 0, [r], 0).0 == OneMessage(count, r)
  {
    hide StampedAll, Stamped, EncodedPayload, FlatRecords, PayloadSize, WireSize;
    EmptyLog();
    SafeNameNotInternal(TOPIC);
    ProducedBatchFits([r]);
    var batch := StampedAll(ToStorage([r]));
    FlatSnoc([], batch);
    assert [] + [batch] == [batch];
    assert |FlatRecords([])| == NextOffset([]) == 0;
  }

  lemma OneWireSize(r: ProtocolRecord)
    ensures WireSize([r]) == 16 + |r.key| + |r.value|
  {
    assert [r][1..] == [];
  }

  /** Creating a topic, producing one message, nacking it. */
  function Begun(opts: RetryOptions, count: u32, r: ProtocolRecord, now: Millis): (seq<State>, seq<Event>)
    requires opts.Valid() && count > 0
  {
    var t1, t2 := map[TOPIC := EmptyPartitions(count)], OneMessage(count, r);
    var (t3, reply) := Nacked(opts, t2, map[], FIRST_NACK, 0, now);
    ([INITIAL, INITIAL.(topics := t1), INITIAL.(topics := t2), INITIAL.(topics := t3, unpublished := TaskOf(reply))],
     [Create(TOPIC, count), Event.Produce(TOPIC, 0, [r], 0), Event.Nack(FIRST_NACK, 0, now)])
  }

  lemma BegunIsRun(opts: RetryOptions, count: u32, r: ProtocolRecord, now: Millis)
    requires opts.Valid() && count > 0 && 16 + |r.key| + |r.value| <= MAX_FRAME_BYTES
    ensures var (states, events) := Begun(opts, count, r, now);
      IsRun(opts, states, events)
  {
    hide Nacked, Produced, OneMessage, StampedAll;
    var (states, events) := Begun(opts, count, r, now);
    SafeNameNotInternal(TOPIC);
    OneWireSize(r);
    OneMessageLog(count, r);
    forall i | 0 <= i < |events| ensures StepAt(opts, states, events, i) {
      assert i == 0 || i == 1 || i == 2;
    }
  }

  /** The message of the first nack, whatever bytes are stored for it. */
  lemma FirstAttempt(opts: RetryOptions, stored: Record, now: Millis)
    requires opts.Valid() && stored.key == [] && stored.value == []
    ensures Attempted(FIRST_NACK, stored).Success?
    ensures var r := Counted(opts, Attempted(FIRST_NACK, stored).value, FIRST_NACK.reason, now);
      && EncodedRetryRecord(r).Ok? && r.retry.Some? && r.retry.value.originalTopic == TOPIC
         && r.retry.value.retryCount == 1
      && r.retry.value.nextVisibleTime == now + opts.delay && !DeadLetter(opts, r.retry.value)
  {
    hide EncodedRetryRecord;
    SafeNameNotInternal(TOPIC);
    EnvelopeEncodableIff(Counted(opts, Attempted(FIRST_NACK, stored).value, FIRST_NACK.reason, now));
  }

  lemma StoredAs(count: u32, r: ProtocolRecord)
    requires count > 0 && 16 + |r.key| + |r.value| <= MAX_FRAME_BYTES
    ensures Addressed(OneMessage(count, r), FIRST_NACK)
    ensures var stored := AddressedRecord(OneMessage(count, r), FIRST_NACK);
      stored.key == r.key && stored.value == r.value
  {
    hide StampedAll, FlatRecords, RecordCrc;
    OneWireSize(r);
    OneMessageLog(count, r);
    EmptyLog();
    var batch := StampedAll(ToStorage([r]));
    FlatSnoc([], batch);
    assert [] + [batch] == [batch];
    assert FlatRecords([]) + batch == batch;
    assert batch[0] == Stamped(ToStorageRecord(r));
  }

  lemma FirstNackAccepted(opts: RetryOptions, count: u32, now: Millis)
    requires opts.Valid() && count > 0
    ensures NackAccepted(opts, OneMessage(count, MESSAGE), map[], FIRST_NACK, now)
    ensures Addressed(OneMessage(count, MESSAGE), FIRST_NACK) && AttemptsOf(OneMessage(count, MESSAGE), FIRST_NACK) == 0
  {
    hide FlatRecords, StampedAll, EncodedRetryRecord, AddressedRecord, Addressed, Counted, DeadLetter, OneMessage,
      Attempted, IsRetryTopic, IsDlqTopic;
    var topics := OneMessage(count, MESSAGE);
    StoredAs(count, MESSAGE);
    SafeNameNotInternal(TOPIC);
    FirstAttempt(opts, AddressedRecord(topics, FIRST_NACK), now);
    OneTopic(count, MESSAGE);
    EmptyLog();
  }

  lemma OneTopic(count: u32, r: ProtocolRecord)
    requires count > 0
    ensures OneMessage(count, r).Keys == {TOPIC} && |OneMessage(count, r)[TOPIC]| == count
    ensures RETRY_PREFIX + TOPIC != TOPIC
  {
  }

  // ---- What the first nack leaves ----

  /** The first nack makes a retry topic of one record, about the one message there is. */
  lemma FirstRetry(opts: RetryOptions, count: u32, now: Millis)
    requires opts.Valid() && count > 0
    ensures var (topics, reply) := Nacked(opts, OneMessage(count, MESSAGE), map[], FIRST_NACK, 0, now);
      && reply.Success? && !reply.value.deadLetter && reply.value.retry.nextVisibleTime == now + opts.delay
      && Formed(opts, topics) && Rooted(topics) && Extends(OneMessage(count, MESSAGE), topics)
      && HoldsRetry(topics, RETRY_PREFIX + TOPIC, 0, 0, reply.value.retry)
  {
    hide Formed, Rooted, Nacked, OneMessage, Addressed, AttemptsOf, NackAccepted, HoldsRetry, Begun, Extends;
    BeforeNack(opts, count);
    FirstNackAccepted(opts, count, now);
    var before := OneMessage(count, MESSAGE);
    NackSucceedsIff(opts, before, map[], FIRST_NACK, 0, now);
    NackCounts(opts, before, map[], FIRST_NACK, 0, now);
    NackStores(opts, before, map[], FIRST_NACK, 0, now);
    NackKeepsFormed(opts, before, map[], FIRST_NACK, 0, now);
    NackKeepsRooted(opts, before, map[], FIRST_NACK, 0, now);
    NackTouchesOneLog(opts, before, map[], FIRST_NACK, 0, now, Key(RETRY_PREFIX + TOPIC, 0));
    OneTopic(count, MESSAGE);
    OrdinaryOriginal(TOPIC);
    SafeNameNotInternal(TOPIC);
    NoRetryYet(count);
  }

  lemma NoRetryYet(count: u32)
    requires count > 0
    ensures LogAt(OneMessage(count, MESSAGE), Key(RETRY_PREFIX + TOPIC, 0)) == [] && NextOffset([]) == 0
  {
    hide OneMessage, FlatRecords;
    OneTopic(count, MESSAGE);
    EmptyLog();
  }

  lemma BeforeNack(opts: RetryOptions, count: u32)
    requires opts.Valid() && count > 0
    ensures Formed(opts, OneMessage(count, MESSAGE)) && Rooted(OneMessage(count, MESSAGE))
  {
    hide Step, Formed, Rooted, Nacked, OneMessage;
    BegunIsRun(opts, count, MESSAGE, 0);
    var (states, events) := Begun(opts, count, MESSAGE, 0);
    RunKeepsFormed(opts, states, events, 2);
    RunKeepsLineage(opts, states, events, 2);
  }

  // ---- Lineage lost ----

  lemma LostMessage(topics: TopicMap, m: RetryMetadata)
    requires Rooted(topics) && HoldsRetry(topics, RETRY_PREFIX + TOPIC, 0, 0, m)
    requires TOPIC in topics && |topics[TOPIC]| == 1
    ensures var kept := topics[TOPIC := [[]]];
      CutShort(topics, kept) && !OriginalsKept(kept) && !Rooted(kept)
  {
    hide DecodedRetryRecord, FlatRecords, IsRetryTopic, IsDlqTopic, Rooted;
    var kept, t := topics[TOPIC := [[]]], RETRY_PREFIX + TOPIC;
    OriginalOfInternal(RETRY_PREFIX, TOPIC);
    EmptyLog();
    assert t != TOPIC;
    forall u | u in kept ensures PartitionsExtend(kept[u], topics[u]) {
    }
    CutKeepsRootedIff(topics, kept);
    if OriginalsKept(kept) {
      assert LogOriginalsKept(kept, t, 0, kept[t][0]);
      var stored := FirstStored(topics, t);
      assert false;
    }
  }

  /** The first record of a retry log that has one, which is a copy of a message. */
  lemma FirstStored(topics: TopicMap, t: bytes) returns (stored: Record)
    requires Rooted(topics) && IsInternalTopic(t) && HasPartition(topics, t, 0) && NextOffset(topics[t][0]) > 0
    ensures exists i, k :: 0 <= i < |topics[t][0]| && 0 <= k < |topics[t][0][i]| && stored == topics[t][0][i][k]
    ensures DecodedRetryRecord(stored).Ok? && DecodedRetryRecord(stored).value.retry.value.originalOffset >= 0
  {
    hide DecodedRetryRecord, FlatRecords, IsInternalTopic;
    var log := topics[t][0];
    var i := IndexOf(log, 0);
    assert TopicRooted(topics, t) && LogRooted(topics, t, 0, log);
    stored := log[i][0];
    assert EnvelopeRooted(topics, t, 0, stored);
  }

  /** A run and a cut that break the lineage: the message is lost, the retry made of it survives. */
  lemma LostOriginal(opts: RetryOptions, now: Millis) returns (states: seq<State>, events: seq<Event>, kept: TopicMap)
    requires opts.Valid()
    ensures IsRun(opts, states, events) && |events| == 3 && Rooted(states[3].topics)
    ensures CutShort(states[3].topics, kept) && !OriginalsKept(kept) && !Rooted(kept)
  {
    hide Step, Nacked, OneMessage, Formed, Rooted, CutShort, OriginalsKept, HoldsRetry;
    var begun := Begun(opts, 1, MESSAGE, now);
    states, events := begun.0, begun.1;
    BegunIsRun(opts, 1, MESSAGE, now);
    FirstRetry(opts, 1, now);
    var topics := states[3].topics;
    OneTopic(1, MESSAGE);
    assert PartitionsExtend(OneMessage(1, MESSAGE)[TOPIC], topics[TOPIC]);
    LostMessage(topics, Nacked(opts, OneMessage(1, MESSAGE), map[], FIRST_NACK, 0, now).1.value.retry);
    kept := topics[TOPIC := [[]]];
  }

  // ---- Starts refused ----

  lemma StartsBefore(count: u32, routes: Routes)
    requires count > 0
    ensures StartAccepts(OneMessage(count, MESSAGE), routes)
  {
    hide OneMessage, TopicAccepted, IsInternalTopic;
    OneTopic(count, MESSAGE);
    SafeNameNotInternal(TOPIC);
  }

  /** The broker could have started before the nack; after it, it can if and only if the topic has no
      partition id that a signed cast changes and the deadline was positive. */
  lemma StartAfterFirstNack(opts: RetryOptions, count: u32, now: Millis, routes: Routes)
    requires opts.Valid() && count > 0
    ensures StartAccepts(OneMessage(count, MESSAGE), routes)
    ensures StartAccepts(Nacked(opts, OneMessage(count, MESSAGE), map[], FIRST_NACK, 0, now).0, routes)
       <==> count <= TWO_31 && DeadlinePositive(opts, now)
  {
    hide Formed, Rooted, Nacked, OneMessage, StartAccepts, Addressed, AttemptsOf, NackAccepted, DeadlinePositive;
    BeforeNack(opts, count);
    StartsBefore(count, routes);
    FirstNackAccepted(opts, count, now);
    OneTopic(count, MESSAGE);
    OrdinaryOriginal(TOPIC);
    SafeNameNotInternal(TOPIC);
    NackThenStart(opts, OneMessage(count, MESSAGE), map[], FIRST_NACK, 0, now, routes);
  }

  /** A run after which Start refuses what the broker wrote: the clock stands at the epoch, retries are
      immediate, and the nack is answered with success. */
  lemma EpochDeadlineRefused(opts: RetryOptions, routes: Routes) returns (states: seq<State>, events: seq<Event>)
    requires opts.Valid() && opts.delay == 0
    ensures IsRun(opts, states, events) && |events| == 3 && SucceedsAt(opts, states, events, 2)
    ensures StartAccepts(states[2].topics, routes) && !StartAccepts(states[3].topics, routes)
  {
    hide Step, Formed, Rooted, Nacked, OneMessage, StartAccepts, HoldsRetry;
    var begun := Begun(opts, 1, MESSAGE, 0);
    states, events := begun.0, begun.1;
    BegunIsRun(opts, 1, MESSAGE, 0);
    FirstRetry(opts, 1, 0);
    StartAfterFirstNack(opts, 1, 0, routes);
  }

  /** Another: the topic was created with more partitions than a signed id can number. */
  lemma ManyPartitionsRefused(opts: RetryOptions, count: u32, now: Millis, routes: Routes)
    returns (states: seq<State>, events: seq<Event>)
    requires opts.Valid() && count > TWO_31
    ensures IsRun(opts, states, events) && |events| == 3 && SucceedsAt(opts, states, events, 2)
    ensures StartAccepts(states[2].topics, routes)
    ensures Formed(opts, states[3].topics) && !Addressable(states[3].topics) && !StartAccepts(states[3].topics, routes)
  {
    hide Step, Formed, Rooted, Nacked, OneMessage, StartAccepts, Addressable, HoldsRetry;
    var begun := Begun(opts, count, MESSAGE, now);
    states, events := begun.0, begun.1;
    BegunIsRun(opts, count, MESSAGE, now);
    FirstRetry(opts, count, now);
    StartAfterFirstNack(opts, count, now, routes);
    RetryTopicCount(opts, count, states[3].topics,
                    Nacked(opts, OneMessage(count, MESSAGE), map[], FIRST_NACK, 0, now).1.value.retry);
  }

  lemma RetryTopicCount(opts: RetryOptions, count: u32, topics: TopicMap, m: RetryMetadata)
    requires count > TWO_31 && Formed(opts, topics) && Extends(OneMessage(count, MESSAGE), topics)
    requires HoldsRetry(topics, RETRY_PREFIX + TOPIC, 0, 0, m)
    ensures !Addressable(topics)
  {
    hide Formed, OneMessage, IsRetryTopic, IsDlqTopic, DecodedRetryRecord, FlatRecords;
    OneTopic(count, MESSAGE);
    OriginalOfInternal(RETRY_PREFIX, TOPIC);
    InternalOriginal(opts, topics, RETRY_PREFIX + TOPIC);
    assert PartitionsExtend(OneMessage(count, MESSAGE)[TOPIC], topics[TOPIC]);
  }

  // ---- Produced, not nackable ----

  lemma FirstNackRefused(opts: RetryOptions, r: ProtocolRecord, now: Millis)
    requires opts.Valid() && 16 + |r.key| + |r.value| <= MAX_FRAME_BYTES
    requires |r.key| + |r.value| + |TOPIC| + ENVELOPE_OVERHEAD > MAX_FRAME_BYTES
    ensures Nacked(opts, OneMessage(1, r), map[], FIRST_NACK, 0, now) == (OneMessage(1, r), Failure(InvalidRequest))
  {
    hide FlatRecords, StampedAll, EncodedRetryRecord, Delivered, OneMessage, NackSource, AddressedRecord, Addressed,
      ReadLog, NextAttempt, Formed, Rooted;
    StoredAs(1, r);
    OneMessageFormed(opts, r, now);
    SafeNameNotInternal(TOPIC);
    NackFindsRecord(opts, OneMessage(1, r), map[], FIRST_NACK, 0);
    var stored := AddressedRecord(OneMessage(1, r), FIRST_NACK);
    CountedTopic(opts, Attempted(FIRST_NACK, stored).value.retry.value, now);
    EnvelopeEncodableIff(Counted(opts, Attempted(FIRST_NACK, stored).value, FIRST_NACK.reason, now));
  }

  lemma CountedTopic(opts: RetryOptions, m: RetryMetadata, now: Millis)
    requires opts.Valid() && m.retryCount < MAX_U32
    ensures NextAttempt(opts, m, [], now).originalTopic == m.originalTopic
    ensures NextAttempt(opts, m, [], now).failureReason == []
  {
  }

  lemma OneMessageFormed(opts: RetryOptions, r: ProtocolRecord, now: Millis)
    requires opts.Valid() && 16 + |r.key| + |r.value| <= MAX_FRAME_BYTES
    ensures Formed(opts, OneMessage(1, r))
  {
    hide Step, Formed, Nacked, OneMessage;
    BegunIsRun(opts, 1, r, now);
    var (states, events) := Begun(opts, 1, r, now);
    RunKeepsFormed(opts, states, events, 2);
  }

  /** A run in which a client produces a message that nobody can nack: its request is encodable, the
      broker stores it, and the nack is refused as invalid and changes nothing. */
  lemma LargeMessageRefused(opts: RetryOptions, r: ProtocolRecord, requestId: u64, now: Millis)
    returns (states: seq<State>, events: seq<Event>)
    requires opts.Valid()
    requires MAX_FRAME_BYTES - ENVELOPE_OVERHEAD < |TOPIC| + |r.key| + |r.value| <= MAX_FRAME_BYTES - PRODUCE_OVERHEAD
    ensures EncodedRequest(Request(KeyProduce, PROTOCOL_VERSION, requestId, RequestBody.Produce(TOPIC, 0, [r]))).Ok?
    ensures IsRun(opts, states, events)
    ensures events == [Create(TOPIC, 1), Event.Produce(TOPIC, 0, [r], 0), Event.Nack(FIRST_NACK, 0, now)]
    ensures HasPartition(states[2].topics, TOPIC, 0) && NextOffset(states[2].topics[TOPIC][0]) == 1
    ensures Nacked(opts, states[2].topics, states[2].visibility, FIRST_NACK, 0, now)
         == (states[2].topics, Failure(InvalidRequest))
    ensures states[3] == states[2]
  {
    hide Step, Nacked, OneMessage, EncodedRequest;
    var begun := Begun(opts, 1, r, now);
    states, events := begun.0, begun.1;
    BegunIsRun(opts, 1, r, now);
    ProduceEncodableIff(TOPIC, 0, r, PROTOCOL_VERSION, requestId);
    OneWireSize(r);
    OneTopic(1, r);
    OneMessageLog(1, r);
    FirstNackRefused(opts, r, now);
  }

  /** 16777150 zero bytes. */
  const LARGE: bytes := seq(16777150, _ => 0)

  /** One such message. */
  lemma LargeMessageExists(opts: RetryOptions, now: Millis) returns (states: seq<State>, events: seq<Event>)
    requires opts.Valid()
    ensures IsRun(opts, states, events) && |events| == 3 && states[3] == states[2]
    ensures events[1] == Event.Produce(TOPIC, 0, [ProtocolRecord(0, [], LARGE, Option.None)], 0)
    ensures Nacked(opts, states[2].topics, states[2].visibility, FIRST_NACK, 0, now).1 == Failure(InvalidRequest)
  {
    hide IsRun, Nacked;
    states, events := LargeMessageRefused(opts, ProtocolRecord(0, [], LARGE, Option.None), 0, now);
  }
}
