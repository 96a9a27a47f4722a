/** Polling does not only deliver what its cursor passes: it gets to the end of what is visible. */
module ConsumerProgress {
  import opened Basics
  import opened PartitionLogs
  import opened RetryCodec
  import opened RetrySchedulers
  import opened Topics
  import opened Broker
  import opened RetryLineage
  import opened NackProofs
  import opened FetchProofs
  import opened Consumers

  /** What a consumer of a partition can see. */
  function VisibleTo(m: Moment, k: Key): nat {
    if !HasPartition(m.topics, k.topic, k.partition) then 0
    else if IsRetryTopic(k.topic) then At(m.visibility, k).end
    else NextOffset(m.topics[k.topic][k.partition])
  }

  /** Wherever the index leads, no offset short of what is visible is refused. */
  ghost predicate NeverRefused(m: Moment, topic: bytes, source: nat, partition: i32, maxBytes: u32) {
    forall o: i64, start: nat :: 0 <= o < VisibleTo(m, Key(SourceTopic(topic, source), partition)) ==>
      AnswerAt(m.(start := start), SourceRequest(topic, source, partition, o, maxBytes)).Success?
  }

  /** Where the index leads the read of each offset. */
  type Route = i64 -> nat

  /** Each round meets the broker unchanged. */
  predicate Unchanged(m: Moment, route: Route, moments: seq<Moment>, cursors: seq<i64>)
    requires |cursors| == |moments| + 1
  {
    forall i :: 0 <= i < |moments| ==> moments[i] == m.(start := route(cursors[i]))
  }

  lemma RoundsPrepended(opts: RetryOptions, topic: bytes, source: nat, partition: i32, maxBytes: u32, m: Moment,
                        route: Route, next: i64, output: seq<ConsumerRecord>, moments: seq<Moment>, cursors: seq<i64>,
                        outputs: seq<seq<ConsumerRecord>>)
    requires Rounds(opts, topic, source, partition, maxBytes, moments, cursors, outputs)
    requires Unchanged(m, route, moments, cursors) && next >= 0
    requires RoundAt(opts, topic, source, partition, maxBytes, m.(start := route(next)), next, cursors[0], output)
    ensures Rounds(opts, topic, source, partition, maxBytes, [m.(start := route(next))] + moments, [next] + cursors,
                   [output] + outputs)
    ensures Unchanged(m, route, [m.(start := route(next))] + moments, [next] + cursors)
  {
    hide RoundAt, Extends;
    SameExtends(m.topics);
  }

  /** One round that is answered: it moves on, and not past what is visible. */
  lemma RoundAnswered(opts: RetryOptions, m: Moment, topic: bytes, source: nat, partition: i32, next: i64,
                      maxBytes: u32)
    returns (next': i64, output: seq<ConsumerRecord>)
    requires var k := Key(SourceTopic(topic, source), partition);
      0 <= next < VisibleTo(m, k) <= NextOffset(LogAt(m.topics, k))
    requires Formed(opts, m.topics) && maxBytes > 0
    requires AnswerAt(m, SourceRequest(topic, source, partition, next, maxBytes)).Success?
    ensures RoundAt(opts, topic, source, partition, maxBytes, m, next, next', output)
    ensures next < next' <= VisibleTo(m, Key(SourceTopic(topic, source), partition))
  {
    hide Formed, FetchedFrom, SourceTopic, FlatRecords, IsRetryTopic, PolledSource, Slice;
    RoundProgresses(opts, m, topic, source, partition, next, maxBytes);
    RoundDelivers(opts, m, topic, source, partition, next, maxBytes);
    var answer := AnswerAt(m, SourceRequest(topic, source, partition, next, maxBytes));
    var d := PolledSource(topic, source, partition, next, maxBytes, answer).value;
    next', output := d.next, d.records;
  }

  /** While the broker stays as it is and refuses nothing, polling from any offset comes to an end: a
      finite number of rounds delivers everything visible from there on, exactly. */
  lemma {:induction false} PollingReachesEnd(opts: RetryOptions, m: Moment, route: Route, topic: bytes, source: nat,
                                             partition: i32, next: i64, maxBytes: u32)
    returns (moments: seq<Moment>, cursors: seq<i64>, outputs: seq<seq<ConsumerRecord>>)
    requires var k := Key(SourceTopic(topic, source), partition);
      0 <= next <= VisibleTo(m, k) <= NextOffset(LogAt(m.topics, k))
    requires Formed(opts, m.topics) && maxBytes > 0 && NeverRefused(m, topic, source, partition, maxBytes)
    ensures Rounds(opts, topic, source, partition, maxBytes, moments, cursors, outputs)
    ensures |cursors| == |moments| + 1 && cursors[0] == next
    ensures Unchanged(m, route, moments, cursors)
    ensures cursors[|moments|] == VisibleTo(m, Key(SourceTopic(topic, source), partition))
    decreases VisibleTo(m, Key(SourceTopic(topic, source), partition)) - next
  {
    hide Formed, AnswerAt, SourceTopic, FlatRecords, VisibleTo, RoundAt, SourceRequest;
    var end := VisibleTo(m, Key(SourceTopic(topic, source), partition));
    if next == end {
      moments, cursors, outputs := [], [next], [];
    } else {
      var now := m.(start := route(next));
      SameVisible(m, route(next), Key(SourceTopic(topic, source), partition));
      var next', output := RoundAnswered(opts, now, topic, source, partition, next, maxBytes);
      moments, cursors, outputs := PollingReachesEnd(opts, m, route, topic, source, partition, next', maxBytes);
      RoundsPrepended(opts, topic, source, partition, maxBytes, m, route, next, output, moments, cursors, outputs);
      moments, cursors, outputs := [now] + moments, [next] + cursors, [output] + outputs;
    }
  }

  lemma SameVisible(m: Moment, start: nat, k: Key)
    ensures VisibleTo(m.(start := start), k) == VisibleTo(m, k)
  {
  }

  /** A consumer's budget for an ordinary partition: every batch fits it. */
  lemma OrdinaryAnswers(m: Moment, topic: bytes, partition: i32, maxBytes: u32)
    requires maxBytes > 0 && HasPartition(m.topics, topic, partition) && !IsInternalTopic(topic)
    requires var log := m.topics[topic][partition];
      forall i :: 0 <= i < |log| ==> BatchBytesOf(log[i]) <= maxBytes
    ensures NeverRefused(m, topic, 0, partition, maxBytes)
    ensures VisibleTo(m, Key(topic, partition)) == NextOffset(LogAt(m.topics, Key(topic, partition)))
  {
    hide FlatRecords, FetchedFrom, BatchBytesOf, IndexOf;
    forall o: i64, start: nat | 0 <= o < VisibleTo(m, Key(topic, partition))
      ensures AnswerAt(m.(start := start), SourceRequest(topic, 0, partition, o, maxBytes)).Success?
    {
      var f := SourceRequest(topic, 0, partition, o, maxBytes);
      OrdinaryFetchIff(m.topics, m.visibility, f, VersionFor(topic), start);
    }
  }

  /** And for an internal one: every original message fits it. */
  ghost predicate OriginalsFit(log: PartitionLog, end: nat, maxBytes: nat) {
    forall o: nat :: o < end && o < NextOffset(log) && DecodedRetryRecord(FlatRecords(log)[o]).Ok? ==>
      var original := DecodedRetryRecord(FlatRecords(log)[o]).value;
      52 + |original.key| + |original.value| <= maxBytes
  }

  lemma InternalAnswers(opts: RetryOptions, m: Moment, topic: bytes, source: nat, partition: i32, maxBytes: u32)
    requires Formed(opts, m.topics) && maxBytes > 0 && IsInternalTopic(SourceTopic(topic, source))
    requires var k := Key(SourceTopic(topic, source), partition);
      && VisibleTo(m, k) <= NextOffset(LogAt(m.topics, k))
      && OriginalsFit(LogAt(m.topics, k), VisibleTo(m, k), maxBytes)
    ensures NeverRefused(m, topic, source, partition, maxBytes)
  {
    hide Formed, FlatRecords, FetchedFrom, DecodedRetryRecord, SourceTopic, IsInternalTopic,
      IsRetryTopic;
    var k := Key(SourceTopic(topic, source), partition);
    forall o: i64, start: nat | 0 <= o < VisibleTo(m, k)
      ensures AnswerAt(m.(start := start), SourceRequest(topic, source, partition, o, maxBytes)).Success?
    {
      var f := SourceRequest(topic, source, partition, o, maxBytes);
      InternalFetchIff(opts, m.topics, m.visibility, f, VersionFor(f.topic), start);
    }
  }

  /** What the rounds deliver together. */
  lemma RoundsDeliver(opts: RetryOptions, m: Moment, route: Route, topic: bytes, source: nat, partition: i32,
                      maxBytes: u32, moments: seq<Moment>, cursors: seq<i64>, outputs: seq<seq<ConsumerRecord>>)
    requires Rounds(opts, topic, source, partition, maxBytes, moments, cursors, outputs) && Formed(opts, m.topics)
    requires Unchanged(m, route, moments, cursors)
    ensures var k := Key(SourceTopic(topic, source), partition);
      var n := |moments|;
      && NextOffset(LogAt(m.topics, k)) < TWO_63 && 0 <= cursors[0] <= cursors[n]
      && (cursors[0] < cursors[n] ==> cursors[n] <= NextOffset(LogAt(m.topics, k)))
      && AllOf(outputs) == Slice(m.topics, k, cursors[0], cursors[n])
  {
    hide Formed, FlatRecords, SourceTopic, RoundAt, LogAt;
    var n := |moments|;
    LogFits(opts, m.topics, Key(SourceTopic(topic, source), partition));
    if n > 0 {
      PollingReconstructsLog(opts, topic, source, partition, maxBytes, moments, cursors, outputs, n - 1);
      assert outputs[..n] == outputs;
    }
  }

  /** Polling an ordinary partition whose batches all fit the budget delivers all of it from any offset
      on, in finitely many rounds, wherever the index leads the reads. */
  lemma OrdinaryReachesEnd(opts: RetryOptions, m: Moment, route: Route, topic: bytes, partition: i32, next: i64,
                           maxBytes: u32)
    returns (moments: seq<Moment>, cursors: seq<i64>, outputs: seq<seq<ConsumerRecord>>)
    requires Formed(opts, m.topics) && maxBytes > 0
    requires HasPartition(m.topics, topic, partition) && !IsInternalTopic(topic)
    requires var log := m.topics[topic][partition];
      0 <= next <= NextOffset(log) && forall i :: 0 <= i < |log| ==> BatchBytesOf(log[i]) <= maxBytes
    ensures var end := NextOffset(m.topics[topic][partition]);
      && Rounds(opts, topic, 0, partition, maxBytes, moments, cursors, outputs) && Unchanged(m, route, moments, cursors)
      && cursors[0] == next && cursors[|moments|] == end < TWO_63
      && AllOf(outputs) == Slice(m.topics, Key(topic, partition), next, end)
  {
    hide Formed, FlatRecords, BatchBytesOf, NeverRefused, Rounds, IsInternalTopic, VisibleTo, Slice;
    OrdinaryAnswers(m, topic, partition, maxBytes);
    moments, cursors, outputs := PollingReachesEnd(opts, m, route, topic, 0, partition, next, maxBytes);
    RoundsDeliver(opts, m, route, topic, 0, partition, maxBytes, moments, cursors, outputs);
  }

  /** Polling the retry topic delivers all that is visible of it, as original messages, if these fit. */
  lemma RetryReachesEnd(opts: RetryOptions, m: Moment, route: Route, topic: bytes, partition: i32, next: i64,
                        maxBytes: u32)
    returns (moments: seq<Moment>, cursors: seq<i64>, outputs: seq<seq<ConsumerRecord>>)
    requires var k := Key(RETRY_PREFIX + topic, partition);
      && HasPartition(m.topics, k.topic, partition)
      && 0 <= next <= At(m.visibility, k).end <= NextOffset(LogAt(m.topics, k))
      && OriginalsFit(LogAt(m.topics, k), At(m.visibility, k).end, maxBytes)
    requires Formed(opts, m.topics) && maxBytes > 0
    ensures var k := Key(RETRY_PREFIX + topic, partition);
      var end := At(m.visibility, k).end;
      && Rounds(opts, topic, 1, partition, maxBytes, moments, cursors, outputs) && Unchanged(m, route, moments, cursors)
      && cursors[0] == next && cursors[|moments|] == end <= NextOffset(LogAt(m.topics, k)) < TWO_63
      && AllOf(outputs) == Slice(m.topics, k, next, end)
  {
    hide Formed, FlatRecords, NeverRefused, Rounds, OriginalsFit, Slice, LogAt, IsRetryTopic;
    OriginalOfInternal(RETRY_PREFIX, topic);
    InternalAnswers(opts, m, topic, 1, partition, maxBytes);
    moments, cursors, outputs := PollingReachesEnd(opts, m, route, topic, 1, partition, next, maxBytes);
    RoundsDeliver(opts, m, route, topic, 1, partition, maxBytes, moments, cursors, outputs);
  }

  /** Polling a dead-letter topic delivers all of it, as original messages, if these fit, whatever the
      scheduler shows. */
  lemma DeadLettersReachEnd(opts: RetryOptions, m: Moment, route: Route, topic: bytes, partition: i32, next: i64,
                            maxBytes: u32)
    returns (moments: seq<Moment>, cursors: seq<i64>, outputs: seq<seq<ConsumerRecord>>)
    requires Formed(opts, m.topics) && maxBytes > 0
    requires IsDlqTopic(topic) && HasPartition(m.topics, topic, partition)
    requires var log := m.topics[topic][partition];
      0 <= next <= NextOffset(log) && OriginalsFit(log, NextOffset(log), maxBytes)
    ensures var end := NextOffset(m.topics[topic][partition]);
      && Rounds(opts, topic, 0, partition, maxBytes, moments, cursors, outputs) && Unchanged(m, route, moments, cursors)
      && cursors[0] == next && cursors[|moments|] == end < TWO_63
      && AllOf(outputs) == Slice(m.topics, Key(topic, partition), next, end)
  {
    hide Formed, FlatRecords, NeverRefused, Rounds, OriginalsFit, Slice, IsRetryTopic, IsDlqTopic;
    DlqNotRetry(topic);
    InternalAnswers(opts, m, topic, 0, partition, maxBytes);
    moments, cursors, outputs := PollingReachesEnd(opts, m, route, topic, 0, partition, next, maxBytes);
    RoundsDeliver(opts, m, route, topic, 0, partition, maxBytes, moments, cursors, outputs);
  }
}
