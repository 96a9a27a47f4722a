/** The cursors of a polling consumer: fetch from where each cursor stands, deliver what is new,
    advance. */
module Consumers {
  import opened Basics
  import opened PartitionLogs
  import opened Protocol
  import opened RetryCodec
  import opened RetrySchedulers
  import opened Topics
  import opened Broker
  import opened RetryLineage
  import opened FetchProofs

  datatype Assignment = Assignment(partition: i32, next: i64, retryNext: i64)

  datatype ConsumerRecord = ConsumerRecord(topic: bytes, partition: i32, offset: i64, record: ProtocolRecord)

  /** The offset i places after base, in 64-bit arithmetic. */
  function OffsetAt(base: i64, i: nat): (r: i64)
    ensures 0 <= base && base + i < TWO_63 ==> r == base + i
  {
    ToI64((FromI64(base) + i) % TWO_64)
  }

  // ---- One answer ----

  datatype Delivery = Delivery(records: seq<ConsumerRecord>, next: i64)

  /** What the loop over the records of one answer delivers, and where the cursor ends up. */
  function Fresh(topic: bytes, partition: i32, base: i64, records: seq<ProtocolRecord>, next: i64): Delivery {
    if records == [] then Delivery([], next)
    else
      var n := |records| - 1;
      var before := Fresh(topic, partition, base, records[..n], next);
      var offset := OffsetAt(base, n);
      if offset < before.next then before
      else Delivery(before.records + [ConsumerRecord(topic, partition, offset, records[n])], OffsetAt(offset, 1))
  }

  method Deliver(topic: bytes, partition: i32, base: i64, records: seq<ProtocolRecord>, next: i64)
    returns (d: Delivery)
    ensures d == Fresh(topic, partition, base, records, next)
  {
    var output, cursor := [], next;
    for i := 0 to |records|
      invariant Delivery(output, cursor) == Fresh(topic, partition, base, records[..i], next)
    {
      assert records[..i + 1][..i] == records[..i];
      var offset := OffsetAt(base, i);
      if offset >= cursor {
        output := output + [ConsumerRecord(topic, partition, offset, records[i])];
        cursor := OffsetAt(offset, 1);
      }
    }
    assert records[..|records|] == records;
    return Delivery(output, cursor);
  }

  /** Of an answer that starts at or before the cursor, exactly the records from the cursor on are
      delivered, each under its own offset. */
  lemma {:induction false} FreshFromCursor(topic: bytes, partition: i32, base: i64, records: seq<ProtocolRecord>,
                                           next: i64)
    requires 0 <= base <= next && base + |records| < TWO_63
    ensures var d := Fresh(topic, partition, base, records, next);
      && d.next == Max(next, base + |records|)
      && |d.records| == d.next - next
      && forall k :: 0 <= k < |d.records| ==>
           d.records[k] == ConsumerRecord(topic, partition, next + k, records[next + k - base])
  {
    if records != [] {
      FreshFromCursor(topic, partition, base, records[..|records| - 1], next);
    }
  }

  // ---- One round ----

  /** The broker's answers of one round; the number says which request of the round it is. */
  type Answers = (FetchRequest, u16, nat) -> Reply<Fetched>

  function SourceTopic(topic: bytes, source: nat): bytes {
    if source == 0 then topic else RETRY_PREFIX + topic
  }

  function VersionFor(topic: bytes): u16 {
    if IsInternalTopic(topic) then RETRY_PROTOCOL_VERSION else PROTOCOL_VERSION
  }

  function PolledSource(topic: bytes, source: nat, partition: i32, next: i64, maxBytes: u32, answer: Reply<Fetched>)
    : Reply<Delivery>
  {
    if source == 1 && answer == Failure(TopicNotFound) then Success(Delivery([], next))
    else
      var fetched :- answer;
      Success(Fresh(SourceTopic(topic, source), partition, fetched.base, fetched.records, next))
  }

  function SourceRequest(topic: bytes, source: nat, partition: i32, next: i64, maxBytes: u32): FetchRequest {
    FetchRequest(SourceTopic(topic, source), partition, next, maxBytes)
  }

  function Ask(answers: Answers, f: FetchRequest, k: nat): Reply<Fetched> {
    answers(f, VersionFor(f.topic), k)
  }

  datatype Polled = Polled(records: seq<ConsumerRecord>, assignments: seq<Assignment>)

  /** One assignment: the topic itself and, unless it is internal, its retry topic. */
  function PolledAssignment(topic: bytes, a: Assignment, maxBytes: u32, answers: Answers, k: nat): Reply<Polled> {
    var own :- PolledSource(topic, 0, a.partition, a.next, maxBytes,
                            Ask(answers, SourceRequest(topic, 0, a.partition, a.next, maxBytes), k));
    if IsInternalTopic(topic) then Success(Polled(own.records, [a.(next := own.next)]))
    else
      var retry :- PolledSource(topic, 1, a.partition, a.retryNext, maxBytes,
                                Ask(answers, SourceRequest(topic, 1, a.partition, a.retryNext, maxBytes), k + 1));
      Success(Polled(own.records + retry.records, [a.(next := own.next, retryNext := retry.next)]))
  }

  function PolledAll(topic: bytes, assignments: seq<Assignment>, maxBytes: u32, answers: Answers): Reply<Polled> {
    if assignments == [] then Success(Polled([], []))
    else
      var n := |assignments| - 1;
      var before :- PolledAll(topic, assignments[..n], maxBytes, answers);
      var last :- PolledAssignment(topic, assignments[n], maxBytes, answers, 2 * n);
      Success(Polled(before.records + last.records, before.assignments + last.assignments))
  }

  lemma {:induction false} PolledAllStops(topic: bytes, assignments: seq<Assignment>, maxBytes: u32, answers: Answers,
                                          n: nat)
    requires n <= |assignments| && PolledAll(topic, assignments[..n], maxBytes, answers).Failure?
    ensures PolledAll(topic, assignments, maxBytes, answers) == PolledAll(topic, assignments[..n], maxBytes, answers)
    decreases |assignments| - n
  {
    hide PolledAssignment;
    if n == |assignments| {
      assert assignments[..n] == assignments;
    } else {
      assert assignments[..n + 1][..n] == assignments[..n];
      PolledAllStops(topic, assignments, maxBytes, answers, n + 1);
    }
  }

  /** What one round does to one assignment: each of its cursors moves as the answer to its own request
      says, and the records come in that order. */
  predicate AssignmentPolled(topic: bytes, a: Assignment, a': Assignment, maxBytes: u32, answers: Answers, k: nat,
                             own: seq<ConsumerRecord>, retry: seq<ConsumerRecord>) {
    && a'.partition == a.partition
    && PolledSource(topic, 0, a.partition, a.next, maxBytes,
                    Ask(answers, SourceRequest(topic, 0, a.partition, a.next, maxBytes), k))
         == Success(Delivery(own, a'.next))
    && if IsInternalTopic(topic) then retry == [] && a'.retryNext == a.retryNext
       else PolledSource(topic, 1, a.partition, a.retryNext, maxBytes,
                         Ask(answers, SourceRequest(topic, 1, a.partition, a.retryNext, maxBytes), k + 1))
              == Success(Delivery(retry, a'.retryNext))
  }

  /** A successful round polls every assignment, and its output is theirs, one after another. */
  lemma {:induction false} RoundPollsEach(topic: bytes, assignments: seq<Assignment>, maxBytes: u32, answers: Answers)
    returns (own: seq<seq<ConsumerRecord>>, retry: seq<seq<ConsumerRecord>>)
    requires PolledAll(topic, assignments, maxBytes, answers).Success?
    ensures var r := PolledAll(topic, assignments, maxBytes, answers).value;
      && |r.assignments| == |own| == |retry| == |assignments|
      && r.records == Interleaved(own, retry)
      && forall i :: 0 <= i < |assignments| ==>
           AssignmentPolled(topic, assignments[i], r.assignments[i], maxBytes, answers, 2 * i, own[i], retry[i])
  {
    hide PolledAssignment, AssignmentPolled;
    own, retry := [], [];
    if assignments != [] {
      var n := |assignments| - 1;
      var before := PolledAll(topic, assignments[..n], maxBytes, answers).value;
      var ownBefore, retryBefore := RoundPollsEach(topic, assignments[..n], maxBytes, answers);
      var o, t := AssignmentPolledBy(topic, assignments[n], maxBytes, answers, 2 * n);
      own, retry := ownBefore + [o], retryBefore + [t];
      assert own[..n] == ownBefore && retry[..n] == retryBefore;
    }
  }

  function Interleaved(own: seq<seq<ConsumerRecord>>, retry: seq<seq<ConsumerRecord>>): seq<ConsumerRecord>
    requires |own| == |retry|
  {
    if own == [] then []
    else
      var n := |own| - 1;
      Interleaved(own[..n], retry[..n]) + (own[n] + retry[n])
  }

  lemma AssignmentPolledBy(topic: bytes, a: Assignment, maxBytes: u32, answers: Answers, k: nat)
    returns (own: seq<ConsumerRecord>, retry: seq<ConsumerRecord>)
    requires PolledAssignment(topic, a, maxBytes, answers, k).Success?
    ensures var r := PolledAssignment(topic, a, maxBytes, answers, k).value;
      && |r.assignments| == 1 && r.records == own + retry
      && AssignmentPolled(topic, a, r.assignments[0], maxBytes, answers, k, own, retry)
  {
    hide PolledSource;
    own := PolledSource(topic, 0, a.partition, a.next, maxBytes,
                        Ask(answers, SourceRequest(topic, 0, a.partition, a.next, maxBytes), k)).value.records;
    retry := [];
    if IsInternalTopic(topic) {
      assert own + [] == own;
    } else {
      retry := PolledSource(topic, 1, a.partition, a.retryNext, maxBytes,
                            Ask(answers, SourceRequest(topic, 1, a.partition, a.retryNext, maxBytes),
                                k + 1)).value.records;
    }
  }

  class Consumer {
    const topic: bytes
    const maxBytes: u32
    var assignments: seq<Assignment>

    constructor (topic: bytes, maxBytes: u32, assignments: seq<Assignment>)
      ensures this.topic == topic && this.maxBytes == maxBytes && this.assignments == assignments
    {
      this.topic := topic;
      this.maxBytes := maxBytes;
      this.assignments := assignments;
    }

    method PollSource(source: nat, partition: i32, next: i64, answers: Answers, k: nat) returns (r: Reply<Delivery>)
      ensures r == PolledSource(topic, source, partition, next, maxBytes,
                                Ask(answers, SourceRequest(topic, source, partition, next, maxBytes), k))
    {
      hide Fresh;
      var fetchTopic := SourceTopic(topic, source);
      var version := if IsInternalTopic(fetchTopic) then RETRY_PROTOCOL_VERSION else PROTOCOL_VERSION;
      var response := answers(FetchRequest(fetchTopic, partition, next, maxBytes), version, k);
      if source == 1 && response == Failure(TopicNotFound) {
        return Success(Delivery([], next));
      }
      if response.Failure? {
        return Failure(response.code);
      }
      var d := Deliver(fetchTopic, partition, response.value.base, response.value.records, next);
      return Success(d);
    }

    method PollAssignment(a: Assignment, answers: Answers, k: nat) returns (r: Reply<Polled>)
      ensures r == PolledAssignment(topic, a, maxBytes, answers, k)
    {
      hide PolledSource;
      var own := PollSource(0, a.partition, a.next, answers, k);
      if own.Failure? {
        return Failure(own.code);
      }
      if IsInternalTopic(topic) {
        return Success(Polled(own.value.records, [a.(next := own.value.next)]));
      }
      var retry := PollSource(1, a.partition, a.retryNext, answers, k + 1);
      if retry.Failure? {
        return Failure(retry.code);
      }
      return Success(Polled(own.value.records + retry.value.records,
                            [a.(next := own.value.next, retryNext := retry.value.next)]));
    }

    /** One round of Poll over all assignments. A failed request loses the round's records, but leaves
        every cursor where it was. */
    method PollRound(answers: Answers) returns (r: Reply<seq<ConsumerRecord>>)
      modifies this`assignments
      ensures var polled := PolledAll(topic, old(assignments), maxBytes, answers);
        && (polled.Failure? ==> r == Failure(polled.code) && assignments == old(assignments))
        && (polled.Success? ==> r == Success(polled.value.records) && assignments == polled.value.assignments)
    {
      hide PolledAssignment;
      var output: seq<ConsumerRecord>, updated: seq<Assignment> := [], [];
      for i := 0 to |assignments|
        invariant assignments == old(assignments)
        invariant PolledAll(topic, assignments[..i], maxBytes, answers) == Success(Polled(output, updated))
      {
        assert assignments[..i + 1][..i] == assignments[..i];
        var polled := PollAssignment(assignments[i], answers, 2 * i);
        if polled.Failure? {
          PolledAllStops(topic, assignments, maxBytes, answers, i + 1);
          return Failure(polled.code);
        }
        output, updated := output + polled.value.records, updated + polled.value.assignments;
      }
      assert assignments[..|assignments|] == assignments;
      assignments := updated;
      return Success(output);
    }
  }

  // ---- Many rounds against the broker ----

  /** The state of the broker when it answers one request. */
  datatype Moment = Moment(topics: TopicMap, visibility: map<Key, Visibility>, start: nat)

  function AnswerAt(m: Moment, f: FetchRequest): Reply<Fetched> {
    FetchedFrom(m.topics, m.visibility, f, VersionFor(f.topic), m.start)
  }

  /** A record as the consumers of its partition see it. */
  function Seen(k: Key, log: PartitionLog, offset: nat): ConsumerRecord
    requires offset < NextOffset(log) < TWO_63
  {
    ConsumerRecord(k.topic, k.partition, offset, View(k.topic, VersionFor(k.topic), FlatRecords(log)[offset]))
  }

  function RecordAt(topics: TopicMap, k: Key, offset: nat): ConsumerRecord
    requires offset < NextOffset(LogAt(topics, k)) < TWO_63
  {
    Seen(k, LogAt(topics, k), offset)
  }

  function SeenFrom(k: Key, log: PartitionLog, begin: nat, end: nat): (s: seq<ConsumerRecord>)
    requires begin <= end <= NextOffset(log) < TWO_63
    ensures |s| == end - begin
    ensures forall i :: 0 <= i < |s| ==> s[i] == Seen(k, log, begin + i)
  {
    seq(end - begin, i requires 0 <= i < end - begin => Seen(k, log, begin + i))
  }

  /** The records of a partition from one offset up to another. */
  function Slice(topics: TopicMap, k: Key, begin: nat, end: nat): (s: seq<ConsumerRecord>)
    requires end <= begin || end <= NextOffset(LogAt(topics, k)) < TWO_63
    ensures |s| == Max(0, end - begin)
    ensures forall i :: 0 <= i < |s| ==> s[i] == RecordAt(topics, k, begin + i)
  {
    if end <= begin then [] else SeenFrom(k, LogAt(topics, k), begin, end)
  }

  lemma LogFits(opts: RetryOptions, topics: TopicMap, k: Key)
    requires Formed(opts, topics)
    ensures NextOffset(LogAt(topics, k)) < TWO_63
  {
    hide BatchFormed, ValidTopicName, FlatRecords;
    EmptyLog();
    if HasPartition(topics, k.topic, k.partition) {
      assert TopicFormed(opts, topics, k.topic) && LogFormed(opts, k.topic, k.partition, LogAt(topics, k));
    }
  }

  /** One answered request delivers the slice of the log its cursor moved over. */
  lemma RoundDelivers(opts: RetryOptions, m: Moment, topic: bytes, source: nat, partition: i32, next: i64,
                      maxBytes: u32)
    requires Formed(opts, m.topics) && next >= 0
    ensures var k := Key(SourceTopic(topic, source), partition);
      var answer := AnswerAt(m, SourceRequest(topic, source, partition, next, maxBytes));
      var r := PolledSource(topic, source, partition, next, maxBytes, answer);
      NextOffset(LogAt(m.topics, k)) < TWO_63 &&
      (r.Success? ==>
        && next <= r.value.next
        && (next < r.value.next ==> r.value.next <= NextOffset(LogAt(m.topics, k)))
        && r.value.records == Slice(m.topics, k, next, r.value.next)
        && (next < r.value.next && IsRetryTopic(k.topic) ==> r.value.next <= At(m.visibility, k).end))
  {
    hide Formed, FlatRecords, IsInternalTopic, IsRetryTopic, FetchedFrom, View, SourceTopic, Fresh;
    var f := SourceRequest(topic, source, partition, next, maxBytes);
    var k := Key(f.topic, partition);
    var answer := AnswerAt(m, f);
    LogFits(opts, m.topics, k);
    EmptyAnswer(m.topics, m.visibility, f, VersionFor(f.topic), m.start);
    if answer.Success? {
      if Readable(m.topics, m.visibility, f) {
        FetchedIsSlice(m.topics, m.visibility, f, VersionFor(f.topic), m.start);
        FreshFromCursor(f.topic, partition, answer.value.base, answer.value.records, next);
        var d := Fresh(f.topic, partition, answer.value.base, answer.value.records, next);
        var slice := Slice(m.topics, k, next, d.next);
        assert forall i :: 0 <= i < |slice| ==> d.records[i] == slice[i];
        if IsRetryTopic(k.topic) {
          FetchStaysVisible(opts, m.topics, m.visibility, f, VersionFor(f.topic), m.start);
        }
      } else {
        NoneFresh(f.topic, partition, answer.value.base, next);
      }
    }
  }

  lemma NoneFresh(topic: bytes, partition: i32, base: i64, next: i64)
    ensures Fresh(topic, partition, base, [], next) == Delivery([], next)
  {
  }

  lemma EmptyAnswer(topics: TopicMap, visibility: map<Key, Visibility>, f: FetchRequest, version: u16, start: nat)
    ensures var r := FetchedFrom(topics, visibility, f, version, start);
      r.Success? && !Readable(topics, visibility, f) ==> r.value.records == []
  {
    hide FlatRecords, IndexOf, BaseOf, Within, Served, IsInternalTopic;
  }

  lemma SliceStays(topics: TopicMap, topics': TopicMap, k: Key, begin: nat, end: nat)
    requires Extends(topics, topics')
    requires NextOffset(LogAt(topics, k)) < TWO_63 && NextOffset(LogAt(topics', k)) < TWO_63
    requires end <= begin || end <= NextOffset(LogAt(topics, k))
    ensures end <= begin || end <= NextOffset(LogAt(topics', k))
    ensures Slice(topics, k, begin, end) == Slice(topics', k, begin, end)
  {
    hide FlatRecords, View, Slice;
    if begin < end {
      EmptyLog();
      assert PartitionsExtend(topics[k.topic], topics'[k.topic]);
      FlatPrefix(LogAt(topics, k), LogAt(topics', k));
      forall o: nat | o < end ensures RecordAt(topics, k, o) == RecordAt(topics', k, o) {
      }
    }
  }

  /** The rounds of one cursor: each asks the broker as it is at that moment, and logs only grow from
      moment to moment. */
  ghost predicate Rounds(opts: RetryOptions, topic: bytes, source: nat, partition: i32, maxBytes: u32,
                         moments: seq<Moment>, cursors: seq<i64>, outputs: seq<seq<ConsumerRecord>>) {
    && |moments| == |outputs| && |cursors| == |moments| + 1 && cursors[0] >= 0
    && (forall i :: 0 <= i < |moments| ==>
          RoundAt(opts, topic, source, partition, maxBytes, moments[i], cursors[i], cursors[i + 1], outputs[i]))
    && forall i, j :: 0 <= i < j < |moments| && j == i + 1 ==> Extends(moments[i].topics, moments[j].topics)
  }

  ghost predicate RoundAt(opts: RetryOptions, topic: bytes, source: nat, partition: i32, maxBytes: u32,
                          m: Moment, next: i64, next': i64, output: seq<ConsumerRecord>) {
    && Formed(opts, m.topics)
    && PolledSource(topic, source, partition, next, maxBytes,
                    AnswerAt(m, SourceRequest(topic, source, partition, next, maxBytes)))
         == Success(Delivery(output, next'))
  }

  function AllOf(outputs: seq<seq<ConsumerRecord>>): seq<ConsumerRecord> {
    if outputs == [] then [] else AllOf(outputs[..|outputs| - 1]) + outputs[|outputs| - 1]
  }

  /** From any starting offset, in the middle of a batch or not, repeated polling delivers exactly the
      slice of the log between its first and last cursor: no gap, no duplicate, nothing out of order,
      across whatever batches the log is made of, while it grows. */
  lemma {:induction false} PollingReconstructsLog(opts: RetryOptions, topic: bytes, source: nat, partition: i32,
                                                  maxBytes: u32, moments: seq<Moment>, cursors: seq<i64>,
                                                  outputs: seq<seq<ConsumerRecord>>, n: nat)
    requires Rounds(opts, topic, source, partition, maxBytes, moments, cursors, outputs) && n < |moments|
    ensures var k := Key(SourceTopic(topic, source), partition);
      var log := LogAt(moments[n].topics, k);
      && cursors[0] <= cursors[n + 1] && NextOffset(log) < TWO_63
      && (cursors[0] < cursors[n + 1] ==> cursors[n + 1] <= NextOffset(log))
      && AllOf(outputs[..n + 1]) == Slice(moments[n].topics, k, cursors[0], cursors[n + 1])
  {
    hide Formed, FlatRecords, SourceTopic, PolledSource, AnswerAt, IsRetryTopic, Slice;
    var k := Key(SourceTopic(topic, source), partition);
    assert outputs[..n + 1][..n] == outputs[..n];
    if n == 0 {
      assert RoundAt(opts, topic, source, partition, maxBytes, moments[0], cursors[0], cursors[1], outputs[0]);
      RoundDelivers(opts, moments[0], topic, source, partition, cursors[0], maxBytes);
      assert AllOf([]) == [];
      assert [] + outputs[0] == outputs[0];
    } else {
      PollingReconstructsLog(opts, topic, source, partition, maxBytes, moments, cursors, outputs, n - 1);
      assert RoundAt(opts, topic, source, partition, maxBytes, moments[n], cursors[n], cursors[n + 1], outputs[n]);
      RoundDelivers(opts, moments[n], topic, source, partition, cursors[n], maxBytes);
      SliceStays(moments[n - 1].topics, moments[n].topics, k, cursors[0], cursors[n]);
      SliceJoin(moments[n].topics, k, cursors[0], cursors[n], cursors[n + 1]);
    }
  }

  lemma SliceJoin(topics: TopicMap, k: Key, begin: nat, mid: nat, end: nat)
    requires begin <= mid <= end && NextOffset(LogAt(topics, k)) < TWO_63
    requires begin < mid ==> mid <= NextOffset(LogAt(topics, k))
    requires mid < end ==> end <= NextOffset(LogAt(topics, k))
    ensures begin < end ==> end <= NextOffset(LogAt(topics, k))
    ensures Slice(topics, k, begin, mid) + Slice(topics, k, mid, end) == Slice(topics, k, begin, end)
  {
    hide RecordAt, Slice, LogAt;
  }

  /** A cursor short of what is visible moves on with every answered round. */
  lemma RoundProgresses(opts: RetryOptions, m: Moment, topic: bytes, source: nat, partition: i32, next: i64,
                        maxBytes: u32)
    requires Formed(opts, m.topics)
    requires Readable(m.topics, m.visibility, SourceRequest(topic, source, partition, next, maxBytes))
    ensures var answer := AnswerAt(m, SourceRequest(topic, source, partition, next, maxBytes));
      answer.Success? ==>
        PolledSource(topic, source, partition, next, maxBytes, answer).Success?
        && PolledSource(topic, source, partition, next, maxBytes, answer).value.next > next
  {
    hide Formed, FlatRecords, IsInternalTopic, IsRetryTopic, FetchedFrom, View, SourceTopic, Fresh;
    var f := SourceRequest(topic, source, partition, next, maxBytes);
    var answer := AnswerAt(m, f);
    if answer.Success? {
      LogFits(opts, m.topics, Key(f.topic, partition));
      FetchedIsSlice(m.topics, m.visibility, f, VersionFor(f.topic), m.start);
      FreshFromCursor(f.topic, partition, answer.value.base, answer.value.records, next);
    }
  }
}
