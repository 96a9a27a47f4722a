/** What a Fetch answers: a slice of the log that contains the offset asked for, never beyond what is
    visible. */
module FetchProofs {
  import opened Basics
  import opened Records
  import opened PartitionLogs
  import opened Protocol
  import opened RetryCodec
  import opened RetrySchedulers
  import opened Topics
  import opened Broker
  import opened RetryLineage
  import opened NackProofs

  /** A stored record as a client of the given version sees it. */
  function View(topic: bytes, version: u16, stored: Record): ProtocolRecord {
    var decoded := DecodedRetryRecord(stored);
    if IsInternalTopic(topic) && decoded.Ok? then SeenBy(decoded.value, version) else ToProtocol(stored)
  }

  lemma {:induction false} ServedViews(records: seq<Record>, topic: bytes, maxBytes: u32, version: u16)
    ensures var r := Served(records, IsInternalTopic(topic), maxBytes, version);
      r.Success? ==>
        && |r.value| == |records|
        && forall i :: 0 <= i < |records| ==> r.value[i] == View(topic, version, records[i])
  {
    hide DecodedRetryRecord, SeenBy, IsInternalTopic, OriginalBytes;
    if records != [] {
      ServedViews(records[..|records| - 1], topic, maxBytes, version);
    }
  }

  lemma {:induction false} OrdinaryServed(records: seq<Record>, maxBytes: u32, version: u16)
    ensures Served(records, false, maxBytes, version).Success?
  {
    hide ServedInternal;
    if records != [] {
      OrdinaryServed(records[..|records| - 1], maxBytes, version);
    }
  }

  lemma ServedOne(stored: Record, maxBytes: u32, version: u16)
    ensures var one := ServedInternal(stored, maxBytes, version);
      Served([stored], true, maxBytes, version) == if one.Success? then Success([one.value]) else Failure(one.code)
  {
    hide ServedInternal;
    assert [stored][..0] == [];
    assert Served([], true, maxBytes, version) == Success([]);
    var one := ServedInternal(stored, maxBytes, version);
    assert one.Success? ==> [] + [one.value] == [one.value];
  }

  predicate Readable(topics: TopicMap, visibility: map<Key, Visibility>, f: FetchRequest) {
    && f.maxBytes > 0 && HasPartition(topics, f.topic, f.partition)
    && 0 <= f.offset < NextOffset(topics[f.topic][f.partition])
    && (IsRetryTopic(f.topic) ==> f.offset < At(visibility, Key(f.topic, f.partition)).end)
  }

  /** The records of an answer are those of the log, from the base offset on, and the one asked for is
      among them. */
  lemma FetchedIsSlice(topics: TopicMap, visibility: map<Key, Visibility>, f: FetchRequest, version: u16, start: nat)
    requires Readable(topics, visibility, f)
    ensures var r := FetchedFrom(topics, visibility, f, version, start);
      var flat := FlatRecords(topics[f.topic][f.partition]);
      r.Success? ==>
        var g := r.value;
        && 0 <= g.base <= f.offset < g.base + |g.records| <= |flat|
        && forall i :: 0 <= i < |g.records| ==> g.records[i] == View(f.topic, version, flat[g.base + i])
  {
    hide FlatRecords, IndexOf, BaseOf, Within, View, Served, IsInternalTopic, IsRetryTopic;
    var log := topics[f.topic][f.partition];
    var i := IndexOf(log, f.offset);
    BatchSpan(log, i);
    ServedViews(log[i], f.topic, f.maxBytes, version);
  }

  /** The high watermark is the visible end of a retry topic and the log end of any other. A successful
      answer is empty if and only if the offset is at or beyond it; a fetch there succeeds up to the log
      end and not past it. */
  lemma EmptyAnswerIff(topics: TopicMap, visibility: map<Key, Visibility>, f: FetchRequest, version: u16, start: nat)
    requires f.maxBytes > 0 && f.offset >= 0 && HasPartition(topics, f.topic, f.partition)
    ensures var r := FetchedFrom(topics, visibility, f, version, start);
      var high := if IsRetryTopic(f.topic) then At(visibility, Key(f.topic, f.partition)).end
                  else NextOffset(topics[f.topic][f.partition]);
      && (r.Success? ==> r.value.highWatermark == high && (r.value.records == [] <==> high <= f.offset))
      && (high <= f.offset ==> (r.Success? <==> f.offset <= NextOffset(topics[f.topic][f.partition])))
      && (high <= f.offset && r.Success? ==> r.value.base == f.offset)
  {
    hide FlatRecords, Served, BaseOf;
    var log := topics[f.topic][f.partition];
    if f.offset < NextOffset(log) {
      ServedViews(log[IndexOf(log, f.offset)], f.topic, f.maxBytes, version);
    }
  }

  /** An ordinary topic answers if and only if the batches the read passes fit the budget. */
  lemma OrdinaryFetchIff(topics: TopicMap, visibility: map<Key, Visibility>, f: FetchRequest, version: u16, start: nat)
    requires Readable(topics, visibility, f) && !IsInternalTopic(f.topic)
    ensures var log := topics[f.topic][f.partition];
      var i := IndexOf(log, f.offset);
      FetchedFrom(topics, visibility, f, version, start).Success? <==> Within(log, Min(start, i), i, f.maxBytes)
  {
    hide FlatRecords, IndexOf, BaseOf, Within, Served;
    var log := topics[f.topic][f.partition];
    OrdinaryServed(log[IndexOf(log, f.offset)], f.maxBytes, version);
  }

  lemma SingleBatch(opts: RetryOptions, topics: TopicMap, topic: bytes, partition: nat, offset: nat)
    requires Formed(opts, topics) && topic in topics && IsInternalTopic(topic) && partition < |topics[topic]|
    requires offset < NextOffset(topics[topic][partition])
    ensures var log := topics[topic][partition];
      var i := IndexOf(log, offset);
      log[i] == [FlatRecords(log)[offset]] && BaseOf(log, i) == offset
      && EnvelopeFormed(opts, topic, partition, FlatRecords(log)[offset])
  {
    hide Formed, FlatRecords, IndexOf, BaseOf, EnvelopeFormed, BatchBytesOf, IsInternalTopic;
    var log := topics[topic][partition];
    FormedBatch(opts, topics, topic, partition, IndexOf(log, offset));
    BatchSpan(log, IndexOf(log, offset));
  }

  /** An internal topic answers with the one record asked for, if and only if the original message,
      without its envelope, would fit the budget: what could be fetched before can be fetched again. */
  lemma InternalFetchIff(opts: RetryOptions, topics: TopicMap, visibility: map<Key, Visibility>, f: FetchRequest,
                         version: u16, start: nat)
    requires Formed(opts, topics) && Readable(topics, visibility, f) && IsInternalTopic(f.topic)
    ensures var log := topics[f.topic][f.partition];
      var decoded := DecodedRetryRecord(FlatRecords(log)[f.offset]);
      && decoded.Ok?
      && FetchedFrom(topics, visibility, f, version, start) ==
           if 52 + |decoded.value.key| + |decoded.value.value| > f.maxBytes then Failure(InvalidRequest)
           else Success(Fetched(f.offset,
                                if IsRetryTopic(f.topic) then At(visibility, Key(f.topic, f.partition)).end
                                else NextOffset(log),
                                [if version == RETRY_PROTOCOL_VERSION then decoded.value
                                 else decoded.value.(retry := None)]))
  {
    hide Formed, FlatRecords, IndexOf, BaseOf, ReadLog, DecodedRetryRecord, MetadataFormed;
    var log := topics[f.topic][f.partition];
    var stored := FlatRecords(log)[f.offset];
    SingleBatch(opts, topics, f.topic, f.partition, f.offset);
    BudgetHolds(opts, topics, f.topic, f.partition, f.offset, start);
    ServedOne(stored, f.maxBytes, version);
  }

  /** No fetch of a log the broker wrote ends in an internal error. */
  lemma FetchNeverInternal(opts: RetryOptions, topics: TopicMap, visibility: map<Key, Visibility>, f: FetchRequest,
                           version: u16, start: nat)
    requires Formed(opts, topics)
    ensures FetchedFrom(topics, visibility, f, version, start) != Failure(InternalError)
  {
    hide Formed, FlatRecords, IndexOf, BaseOf, Within, Served, DecodedRetryRecord, OriginalBytes, SeenBy,
      IsRetryTopic, IsDlqTopic;
    if Readable(topics, visibility, f) {
      if IsInternalTopic(f.topic) {
        InternalFetchIff(opts, topics, visibility, f, version, start);
      } else {
        var log := topics[f.topic][f.partition];
        OrdinaryServed(log[IndexOf(log, f.offset)], f.maxBytes, version);
      }
    }
  }

  /** What a consumer fetches from a retry or dead-letter topic is its original message. */
  lemma InternalFetchIsOriginal(opts: RetryOptions, topics: TopicMap, visibility: map<Key, Visibility>,
                                f: FetchRequest, version: u16, start: nat)
    requires Formed(opts, topics) && Rooted(topics) && Readable(topics, visibility, f) && IsInternalTopic(f.topic)
    ensures var stored := FlatRecords(topics[f.topic][f.partition])[f.offset];
      && DecodedRetryRecord(stored).Ok?
      && var o := DecodedRetryRecord(stored).value.retry.value.originalOffset;
         var source := LogAt(topics, Key(OriginalOf(f.topic), f.partition));
         && 0 <= o < NextOffset(source)
         && var r := FetchedFrom(topics, visibility, f, version, start);
            r.Success? ==>
              && |r.value.records| == 1
              && r.value.records[0].key == FlatRecords(source)[o].key
              && r.value.records[0].value == FlatRecords(source)[o].value
              && r.value.records[0].timestamp == FlatRecords(source)[o].timestamp
  {
    hide Formed, FlatRecords, DecodedRetryRecord, OriginalBytes, FetchedFrom, IsInternalTopic;
    var log := topics[f.topic][f.partition];
    InternalFetchIff(opts, topics, visibility, f, version, start);
    SingleBatch(opts, topics, f.topic, f.partition, f.offset);
    assert TopicRooted(topics, f.topic) && LogRooted(topics, f.topic, f.partition, log);
    var i := IndexOf(log, f.offset);
    assert EnvelopeRooted(topics, f.topic, f.partition, log[i][0]);
  }

  /** Consumers of a retry topic never see past the visible end. */
  lemma FetchStaysVisible(opts: RetryOptions, topics: TopicMap, visibility: map<Key, Visibility>, f: FetchRequest,
                          version: u16, start: nat)
    requires Formed(opts, topics) && IsRetryTopic(f.topic)
    ensures var r := FetchedFrom(topics, visibility, f, version, start);
      r.Success? && r.value.records != [] ==>
        r.value.base + |r.value.records| <= At(visibility, Key(f.topic, f.partition)).end
  {
    hide Formed, FlatRecords, IndexOf, Within, BaseOf, Served, DecodedRetryRecord, OriginalBytes, SeenBy, IsRetryTopic;
    if Readable(topics, visibility, f) {
      InternalFetchIff(opts, topics, visibility, f, version, start);
    }
  }

  /** Dead letters can be read up to the end of their log, whatever the scheduler shows: each comes back
      as the one record of the answer, if and only if the original message would fit the budget. */
  lemma DeadLetterFetchIff(opts: RetryOptions, topics: TopicMap, visibility: map<Key, Visibility>, f: FetchRequest,
                           version: u16, start: nat)
    requires Formed(opts, topics) && IsDlqTopic(f.topic) && HasPartition(topics, f.topic, f.partition)
    requires f.maxBytes > 0 && 0 <= f.offset < NextOffset(topics[f.topic][f.partition])
    ensures var log := topics[f.topic][f.partition];
      var decoded := DecodedRetryRecord(FlatRecords(log)[f.offset]);
      && decoded.Ok?
      && var r, original := FetchedFrom(topics, visibility, f, version, start), decoded.value;
         && (r.Success? <==> 52 + |original.key| + |original.value| <= f.maxBytes)
         && (r.Success? ==>
               && r.value.base == f.offset && r.value.highWatermark == NextOffset(log) && |r.value.records| == 1
               && r.value.records[0].key == original.key && r.value.records[0].value == original.value
               && r.value.records[0].timestamp == original.timestamp)
  {
    hide Formed, FlatRecords, FetchedFrom, DecodedRetryRecord;
    DlqNotRetry(f.topic);
    InternalFetchIff(opts, topics, visibility, f, version, start);
  }

  lemma DlqNotRetry(topic: bytes)
    requires IsDlqTopic(topic)
    ensures !IsRetryTopic(topic)
  {
    StartsWithAt(topic, DLQ_PREFIX, 1);
    StartsWithAt(topic, RETRY_PREFIX, 1);
  }
}
