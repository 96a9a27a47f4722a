/** BrokerService: produce, fetch and nack over the topic logs and the retry scheduler. */
module Broker {
  import opened Basics
  import opened Records
  import opened RecordBatches
  import opened PartitionLogs
  import opened Protocol
  import opened RetryCodec
  import opened RetrySchedulers
  import opened Topics

  /** A wall-clock reading as RetryNowMs returns it: a signed count of milliseconds, never negative. */
  type Millis = x: int | 0 <= x < 0x8000_0000_0000_0000

  const MAX_U32: u32 := 0xFFFF_FFFF
  const INVALID_PARTITION: i32 := -1

  datatype RetryOptions = RetryOptions(delay: i64, maxRetries: u32) {
    /** What BrokerService::Start insists on. */
    predicate Valid() {
      delay >= 0 && 0 < maxRetries < MAX_U32
    }
  }

  datatype Reply<+T> = Success(value: T) | Failure(code: ProtocolErrorCode) {
    predicate IsFailure() { Failure? }

    function PropagateFailure<U>(): Reply<U>
      requires Failure?
    {
      Failure(code)
    }

    function Extract(): T
      requires Success?
    {
      value
    }
  }

  function InvalidOrInternal(e: ErrorCode): ProtocolErrorCode {
    if e == InvalidArgument then InvalidRequest else InternalError
  }

  function Lifted<T>(r: Result<T>): Reply<T> {
    if r.Ok? then Success(r.value) else Failure(InvalidOrInternal(r.error))
  }

  function ToProtocol(r: Record): ProtocolRecord {
    ProtocolRecord(r.timestamp, r.key, r.value, None)
  }

  // ---- Nack ----

  datatype NackRequest = NackRequest(topic: bytes, partition: i32, offset: i64, reason: bytes)

  datatype NackDone = NackDone(topic: bytes, partition: i32, offset: nat, retry: RetryMetadata, deadLetter: bool)

  /** The stored record a nack is about; start is where the index sends the read. */
  function NackSource(topics: TopicMap, visibility: map<Key, Visibility>, n: NackRequest, start: nat): Reply<Record> {
    if IsDlqTopic(n.topic) then Failure(InvalidRequest)
    else if n.offset < 0 then Failure(OffsetOutOfRange)
    else if !HasPartition(topics, n.topic, n.partition) then Failure(TopicNotFound)
    else
      var log := topics[n.topic][n.partition];
      if n.offset >= NextOffset(log) then Failure(OffsetOutOfRange)
      else if IsRetryTopic(n.topic) && n.offset >= At(visibility, Key(n.topic, n.partition)).end
      then Failure(InvalidRequest)
      else
        var batch :- Lifted(ReadLog(log, n.offset, MAX_RETRY_BATCH_BYTES, start));
        if 0 <= n.offset - batch.base < |batch.records| then Success(batch.records[n.offset - batch.base])
        else Failure(InternalError)
  }

  /** The message being retried and the metadata it has so far. */
  function Attempted(n: NackRequest, stored: Record): (r: Reply<ProtocolRecord>)
    ensures r.Success? ==> r.value.retry.Some? && r.value.retry.value.retryCount < MAX_U32
  {
    if !IsRetryTopic(n.topic)
    then Success(ToProtocol(stored).(retry := Some(RetryMetadata(0, 0, n.topic, n.reason, n.partition, n.offset))))
    else
      var decoded := DecodedRetryRecord(stored);
      if decoded.Err? then Failure(InternalError)
      else
        var m := decoded.value.retry.value;
        if n.topic != RETRY_PREFIX + m.originalTopic || n.partition != m.originalPartition || m.retryCount == MAX_U32
        then Failure(InternalError)
        else Success(decoded.value)
  }

  predicate DeadLetter(opts: RetryOptions, m: RetryMetadata) {
    m.retryCount > opts.maxRetries
  }

  /** One more attempt on the metadata. */
  function NextAttempt(opts: RetryOptions, m: RetryMetadata, reason: bytes, now: Millis): RetryMetadata
    requires opts.Valid() && m.retryCount < MAX_U32
  {
    var counted := m.(retryCount := m.retryCount + 1, failureReason := reason);
    counted.(nextVisibleTime := if DeadLetter(opts, counted) then 0 else now + opts.delay)
  }

  function Destination(opts: RetryOptions, m: RetryMetadata): bytes {
    (if DeadLetter(opts, m) then DLQ_PREFIX else RETRY_PREFIX) + m.originalTopic
  }

  /** The message with one more attempt counted. */
  function Counted(opts: RetryOptions, r: ProtocolRecord, reason: bytes, now: Millis): ProtocolRecord
    requires opts.Valid() && r.retry.Some? && r.retry.value.retryCount < MAX_U32
  {
    r.(retry := Some(NextAttempt(opts, r.retry.value, reason, now)))
  }

  /** Append an envelope to its destination, creating that topic if need be. */
  function Delivered(opts: RetryOptions, topics: TopicMap, partition: i32, m: RetryMetadata, envelope: Record)
    : (TopicMap, Reply<NackDone>)
  {
    if m.originalTopic !in topics then (topics, Failure(TopicNotFound))
    else
      var destination := Destination(opts, m);
      var created := Created(topics, destination, |topics[m.originalTopic]| % TWO_32);
      if created.Err? then (topics, Failure(InvalidOrInternal(created.error)))
      else if !HasPartition(created.value, destination, partition) then (created.value, Failure(InternalError))
      else
        var log := created.value[destination][partition];
        var appended := AppendTo(log, [envelope]);
        if appended.Err? then (created.value, Failure(InvalidOrInternal(appended.error)))
        else (WithLog(created.value, destination, partition, appended.value),
              Success(NackDone(destination, partition, NextOffset(log), m, DeadLetter(opts, m))))
  }

  /** HandleNack, up to the call of Schedule. */
  function Nacked(opts: RetryOptions, topics: TopicMap, visibility: map<Key, Visibility>, n: NackRequest,
                  start: nat, now: Millis): (TopicMap, Reply<NackDone>)
    requires opts.Valid()
  {
    var stored := NackSource(topics, visibility, n, start);
    if stored.Failure? then (topics, Failure(stored.code))
    else
      var attempted := Attempted(n, stored.value);
      if attempted.Failure? then (topics, Failure(attempted.code))
      else
        var counted := Counted(opts, attempted.value, n.reason, now);
        var envelope := EncodedRetryRecord(counted);
        if envelope.Err? then (topics, Failure(InvalidOrInternal(envelope.error)))
        else Delivered(opts, topics, n.partition, counted.retry.value, envelope.value)
  }

  // ---- Produce ----

  datatype ProduceDone = ProduceDone(partition: i32, baseOffset: nat, count: u32)

  /** HandleProduce; chosen is the partition the key hash or the round robin picks. */
  function Produced(topics: TopicMap, topic: bytes, partition: i32, records: seq<ProtocolRecord>, chosen: i32)
    : (TopicMap, Reply<ProduceDone>)
  {
    if IsInternalTopic(topic) || records == [] then (topics, Failure(InvalidRequest))
    else
      var selected := if partition == INVALID_PARTITION then chosen else partition;
      if !HasPartition(topics, topic, selected) then (topics, Failure(TopicNotFound))
      else
        var log := topics[topic][selected];
        var appended := AppendTo(log, ToStorage(records));
        if appended.Err? then (topics, Failure(InvalidOrInternal(appended.error)))
        else (WithLog(topics, topic, selected, appended.value),
              Success(ProduceDone(selected, NextOffset(log), |records| % TWO_32)))
  }

  // ---- CreateTopic ----

  function TopicCreated(topics: TopicMap, topic: bytes, count: u32): (TopicMap, Reply<Unit>) {
    if IsInternalTopic(topic) then (topics, Failure(InvalidRequest))
    else
      var created := Created(topics, topic, count);
      if created.Err? then (topics, Failure(InvalidOrInternal(created.error))) else (created.value, Success(Unit))
  }

  // ---- Fetch ----

  datatype FetchRequest = FetchRequest(topic: bytes, partition: i32, offset: i64, maxBytes: u32)

  datatype Fetched = Fetched(base: i64, highWatermark: nat, records: seq<ProtocolRecord>)

  /** What the budget of an internal fetch is charged for: the original message. */
  function OriginalBytes(r: ProtocolRecord): nat {
    BATCH_HEADER_BYTES + EncodedRecordSize(ToStorageRecord(r))
  }

  /** A record of an internal topic as a client of the given version gets it. */
  function ServedInternal(stored: Record, maxBytes: u32, version: u16): Reply<ProtocolRecord> {
    var decoded := DecodedRetryRecord(stored);
    if decoded.Err? then Failure(InternalError)
    else if OriginalBytes(decoded.value) > maxBytes then Failure(InvalidRequest)
    else Success(SeenBy(decoded.value, version))
  }

  function Served(records: seq<Record>, internal: bool, maxBytes: u32, version: u16): Reply<seq<ProtocolRecord>> {
    if records == [] then Success([])
    else
      var n := |records| - 1;
      var before :- Served(records[..n], internal, maxBytes, version);
      var last :- if internal then ServedInternal(records[n], maxBytes, version) else Success(ToProtocol(records[n]));
      Success(before + [last])
  }

  function HighWatermark(topics: TopicMap, visibility: map<Key, Visibility>, topic: bytes, partition: i32): nat
    requires HasPartition(topics, topic, partition)
  {
    if IsRetryTopic(topic) then At(visibility, Key(topic, partition)).end else NextOffset(topics[topic][partition])
  }

  /** HandleFetch. */
  function FetchedFrom(topics: TopicMap, visibility: map<Key, Visibility>, f: FetchRequest, version: u16, start: nat)
    : Reply<Fetched>
  {
    if f.offset < 0 then Failure(OffsetOutOfRange)
    else if f.maxBytes == 0 then Failure(InvalidRequest)
    else if !HasPartition(topics, f.topic, f.partition) then Failure(TopicNotFound)
    else
      var log := topics[f.topic][f.partition];
      var high := HighWatermark(topics, visibility, f.topic, f.partition);
      if f.offset > NextOffset(log) then Failure(OffsetOutOfRange)
      else if f.offset >= high then Success(Fetched(f.offset, high, []))
      else
        var internal := IsInternalTopic(f.topic);
        var batch := ReadLog(log, f.offset, if internal then MAX_RETRY_BATCH_BYTES else f.maxBytes, start);
        if batch.Err? then
          Failure(if batch.error == NotFound then OffsetOutOfRange else InvalidOrInternal(batch.error))
        else
          var records :- Served(batch.value.records, internal, f.maxBytes, version);
          Success(Fetched(batch.value.base, high, records))
  }

  // ---- The service ----

  class BrokerService {
    const options: RetryOptions
    const retries: RetryScheduler
    var topics: TopicMap

    ghost predicate Valid()
      reads this, retries
    {
      options.Valid() && retries.Valid()
    }

    constructor (options: RetryOptions)
      requires options.Valid()
      ensures Valid() && fresh(retries) && this.options == options
      ensures topics == map[] && retries.tasks == multiset{} && retries.visibility == map[]
    {
      this.options := options;
      this.topics := map[];
      this.retries := new RetryScheduler();
    }

    method HandleCreateTopic(topic: bytes, count: u32) returns (r: Reply<Unit>)
      modifies this`topics
      ensures (topics, r) == TopicCreated(old(topics), topic, count)
    {
      if IsInternalTopic(topic) {
        return Failure(InvalidRequest);
      }
      var created := Created(topics, topic, count);
      if created.Err? {
        return Failure(InvalidOrInternal(created.error));
      }
      topics := created.value;
      return Success(Unit);
    }

    /** flushed says whether the flush of a synchronous broker succeeds. */
    method HandleProduce(topic: bytes, partition: i32, records: seq<ProtocolRecord>, chosen: i32, flushed: bool)
      returns (r: Reply<ProduceDone>)
      modifies this`topics
      ensures var (after, reply) := Produced(old(topics), topic, partition, records, chosen);
        topics == after && r == if reply.Success? && !flushed then Failure(InternalError) else reply
    {
      hide AppendTo, NextOffset, ToStorage;
      if IsInternalTopic(topic) || records == [] {
        return Failure(InvalidRequest);
      }
      var selected := if partition == INVALID_PARTITION then chosen else partition;
      if !HasPartition(topics, topic, selected) {
        return Failure(TopicNotFound);
      }
      var stored := StoreRecords(records);
      var log := topics[topic][selected];
      var appended := AppendTo(log, stored);
      if appended.Err? {
        return Failure(InvalidOrInternal(appended.error));
      }
      topics := WithLog(topics, topic, selected, appended.value);
      if !flushed {
        return Failure(InternalError);
      }
      return Success(ProduceDone(selected, NextOffset(log), |records| % TWO_32));
    }

    /** now and later are the clock readings of the deadline and of the scheduling. A successful append
        is published even when the flush after it fails. */
    method HandleNack(n: NackRequest, start: nat, now: Millis, later: Millis, flushed: bool)
      returns (r: Reply<NackDone>)
      requires Valid()
      modifies this`topics, retries
      ensures Valid()
      ensures var (after, reply) := Nacked(options, old(topics), old(retries.visibility), n, start, now);
        && topics == after
        && r == (if reply.Success? && !flushed then Failure(InternalError) else reply)
        && if reply.Success? && !reply.value.deadLetter then
             var task := RetryTask(Key(reply.value.topic, n.partition), reply.value.offset,
                                  reply.value.retry.nextVisibleTime);
             Settled(old(retries.tasks) + multiset{task}, old(retries.visibility), later,
                     retries.tasks, retries.visibility)
           else retries.tasks == old(retries.tasks) && retries.visibility == old(retries.visibility)
    {
      hide ReadLog, NextOffset, DecodedRetryRecord, EncodedRetryRecord, Delivered, Settled;
      if IsDlqTopic(n.topic) {
        return Failure(InvalidRequest);
      }
      if n.offset < 0 {
        return Failure(OffsetOutOfRange);
      }
      if !HasPartition(topics, n.topic, n.partition) {
        return Failure(TopicNotFound);
      }
      var log := topics[n.topic][n.partition];
      if n.offset >= NextOffset(log) {
        return Failure(OffsetOutOfRange);
      }
      if IsRetryTopic(n.topic) {
        var end := retries.VisibleEnd(Key(n.topic, n.partition));
        if n.offset >= end {
          return Failure(InvalidRequest);
        }
      }
      var batch := ReadLog(log, n.offset, MAX_RETRY_BATCH_BYTES, start);
      if batch.Err? {
        return Failure(InvalidOrInternal(batch.error));
      }
      var index := n.offset - batch.value.base;
      if !(0 <= index < |batch.value.records|) {
        return Failure(InternalError);
      }
      var stored := batch.value.records[index];
      var record := ToProtocol(stored);
      var retry := RetryMetadata(0, 0, n.topic, n.reason, n.partition, n.offset);
      if IsRetryTopic(n.topic) {
        var decoded := DecodedRetryRecord(stored);
        if decoded.Err? {
          return Failure(InternalError);
        }
        record := decoded.value;
        retry := record.retry.value;
        if n.topic != RETRY_PREFIX + retry.originalTopic || n.partition != retry.originalPartition
           || retry.retryCount == MAX_U32 {
          return Failure(InternalError);
        }
      }
      retry := retry.(retryCount := retry.retryCount + 1, failureReason := n.reason);
      var deadLetter := retry.retryCount > options.maxRetries;
      retry := retry.(nextVisibleTime := if deadLetter then 0 else now + options.delay);
      record := record.(retry := Some(retry));
      assert record == Counted(options, Attempted(n, stored).value, n.reason, now);
      var encoded := EncodedRetryRecord(record);
      if encoded.Err? {
        return Failure(InvalidOrInternal(encoded.error));
      }
      r := Deliver(n.partition, retry, encoded.value, later, flushed);
    }

    method Deliver(partition: i32, retry: RetryMetadata, envelope: Record, later: Millis, flushed: bool)
      returns (r: Reply<NackDone>)
      requires Valid()
      modifies this`topics, retries
      ensures Valid()
      ensures var (after, reply) := Delivered(options, old(topics), partition, retry, envelope);
        && topics == after
        && r == (if reply.Success? && !flushed then Failure(InternalError) else reply)
        && if reply.Success? && !reply.value.deadLetter then
             var task := RetryTask(Key(reply.value.topic, partition), reply.value.offset, retry.nextVisibleTime);
             Settled(old(retries.tasks) + multiset{task}, old(retries.visibility), later,
                     retries.tasks, retries.visibility)
           else retries.tasks == old(retries.tasks) && retries.visibility == old(retries.visibility)
      ensures Delivered(options, old(topics), partition, retry, envelope).1.Success? ==>
        Delivered(options, old(topics), partition, retry, envelope).1.value.retry == retry
    {
      hide NextOffset, AppendTo, Created, Settled;
      if retry.originalTopic !in topics {
        return Failure(TopicNotFound);
      }
      var destination := Destination(options, retry);
      var created := Created(topics, destination, |topics[retry.originalTopic]| % TWO_32);
      if created.Err? {
        return Failure(InvalidOrInternal(created.error));
      }
      topics := created.value;
      if !HasPartition(topics, destination, partition) {
        return Failure(InternalError);
      }
      var log := topics[destination][partition];
      var appended := AppendTo(log, [envelope]);
      if appended.Err? {
        return Failure(InvalidOrInternal(appended.error));
      }
      topics := WithLog(topics, destination, partition, appended.value);
      var deadLetter := retry.retryCount > options.maxRetries;
      if !deadLetter {
        retries.Schedule(Key(destination, partition), NextOffset(log), retry.nextVisibleTime, later);
      }
      if !flushed {
        return Failure(InternalError);
      }
      return Success(NackDone(destination, partition, NextOffset(log), retry, deadLetter));
    }

    method HandleFetch(f: FetchRequest, version: u16, start: nat) returns (r: Reply<Fetched>)
      ensures r == FetchedFrom(topics, retries.visibility, f, version, start)
    {
      hide IndexOf, Within, BaseOf, FlatRecords, ServedInternal;
      if f.offset < 0 {
        return Failure(OffsetOutOfRange);
      }
      if f.maxBytes == 0 {
        return Failure(InvalidRequest);
      }
      if !HasPartition(topics, f.topic, f.partition) {
        return Failure(TopicNotFound);
      }
      var log := topics[f.topic][f.partition];
      var logEnd := NextOffset(log);
      var highWatermark: nat := logEnd;
      if IsRetryTopic(f.topic) {
        highWatermark := retries.VisibleEnd(Key(f.topic, f.partition));
      }
      if f.offset > logEnd {
        return Failure(OffsetOutOfRange);
      }
      if f.offset >= highWatermark {
        return Success(Fetched(f.offset, highWatermark, []));
      }
      var internal := IsInternalTopic(f.topic);
      var batch := ReadLog(log, f.offset, if internal then MAX_RETRY_BATCH_BYTES else f.maxBytes, start);
      if batch.Err? {
        return Failure(if batch.error == NotFound then OffsetOutOfRange else InvalidOrInternal(batch.error));
      }
      var stored, records := batch.value.records, [];
      for i := 0 to |stored|
        invariant Served(stored[..i], internal, f.maxBytes, version) == Success(records)
      {
        assert stored[..i + 1][..i] == stored[..i];
        var one := if internal then ServedInternal(stored[i], f.maxBytes, version) else Success(ToProtocol(stored[i]));
        if one.Failure? {
          ServedStops(stored, i + 1, internal, f.maxBytes, version);
          return Failure(one.code);
        }
        records := records + [one.value];
      }
      assert stored[..|stored|] == stored;
      return Success(Fetched(batch.value.base, highWatermark, records));
    }
  }

  method StoreRecords(records: seq<ProtocolRecord>) returns (stored: seq<Record>)
    ensures stored == ToStorage(records)
  {
    hide ToStorageRecord;
    stored := [];
    for i := 0 to |records|
      invariant stored + ToStorage(records[i..]) == ToStorage(records)
    {
      assert records[i..][1..] == records[i + 1..];
      stored := stored + [ToStorageRecord(records[i])];
    }
    assert records[|records|..] == [];
  }

  /** The first record that cannot be served decides the answer. */
  lemma {:induction false} ServedStops(records: seq<Record>, n: nat, internal: bool, maxBytes: u32, version: u16)
    requires n <= |records| && Served(records[..n], internal, maxBytes, version).Failure?
    ensures Served(records, internal, maxBytes, version) == Served(records[..n], internal, maxBytes, version)
    decreases |records| - n
  {
    hide ServedInternal;
    if n == |records| {
      assert records[..n] == records;
    } else {
      assert records[..n + 1][..n] == records[..n];
      ServedStops(records, n + 1, internal, maxBytes, version);
    }
  }
}
