/** Whole rounds of Poll against the broker: when one succeeds, and what it does to each assignment. */
module PollRounds {
  import opened Basics
  import opened PartitionLogs
  import opened Protocol
  import opened RetryCodec
  import opened RetrySchedulers
  import opened Topics
  import opened Broker
  import opened RetryLineage
  import opened Consumers

  /** What the broker answers while it is as it is; route says where the index leads each request. */
  function AnswersOf(m: Moment, route: nat -> nat): Answers {
    (f: FetchRequest, version: u16, k: nat) => FetchedFrom(m.topics, m.visibility, f, version, route(k))
  }

  /** The request for an assignment's own topic is answered. */
  predicate OwnAnswered(topic: bytes, a: Assignment, maxBytes: u32, answers: Answers, k: nat) {
    answers(FetchRequest(topic, a.partition, a.next, maxBytes),
            if IsInternalTopic(topic) then RETRY_PROTOCOL_VERSION else PROTOCOL_VERSION, k).Success?
  }

  /** The request for its retry topic is answered, or there is no such topic. */
  predicate RetryAnswered(topic: bytes, a: Assignment, maxBytes: u32, answers: Answers, k: nat) {
    var r := answers(FetchRequest(RETRY_PREFIX + topic, a.partition, a.retryNext, maxBytes), RETRY_PROTOCOL_VERSION, k);
    r.Success? || r.code == TopicNotFound
  }

  /** A round succeeds if and only if every assignment's own request is answered and every retry topic
      that exists answers too: a missing retry topic does no harm, a missing topic fails the round. An
      internal topic has no retry topic to ask. */
  lemma {:induction false} RoundSucceedsIff(topic: bytes, assignments: seq<Assignment>, maxBytes: u32, answers: Answers)
    ensures PolledAll(topic, assignments, maxBytes, answers).Success? <==>
      forall i :: 0 <= i < |assignments| ==>
        && OwnAnswered(topic, assignments[i], maxBytes, answers, 2 * i)
        && (IsInternalTopic(topic) || RetryAnswered(topic, assignments[i], maxBytes, answers, 2 * i + 1))
  {
    hide PolledAssignment, OwnAnswered, RetryAnswered, IsInternalTopic;
    if assignments != [] {
      var n := |assignments| - 1;
      RoundSucceedsIff(topic, assignments[..n], maxBytes, answers);
      AssignmentSucceedsIff(topic, assignments[n], maxBytes, answers, 2 * n);
    }
  }

  lemma AssignmentSucceedsIff(topic: bytes, a: Assignment, maxBytes: u32, answers: Answers, k: nat)
    ensures PolledAssignment(topic, a, maxBytes, answers, k).Success? <==>
      && OwnAnswered(topic, a, maxBytes, answers, k)
      && (IsInternalTopic(topic) || RetryAnswered(topic, a, maxBytes, answers, k + 1))
  {
    hide Fresh, IsRetryTopic, IsDlqTopic;
    OriginalOfInternal(RETRY_PREFIX, topic);
  }

  /** A round over a topic nobody has nacked anything of: its retry cursors stay, and each of its own
      cursors delivers the slice it moves over, and moves on if there is anything to deliver. */
  lemma RoundWithoutRetryTopic(opts: RetryOptions, m: Moment, route: nat -> nat, topic: bytes,
                               assignments: seq<Assignment>, maxBytes: u32)
    returns (outputs: seq<seq<ConsumerRecord>>)
    requires Formed(opts, m.topics) && !IsInternalTopic(topic) && RETRY_PREFIX + topic !in m.topics && maxBytes > 0
    requires forall i :: 0 <= i < |assignments| ==>
      && assignments[i].next >= 0 && assignments[i].retryNext >= 0
      && OwnAnswered(topic, assignments[i], maxBytes, AnswersOf(m, route), 2 * i)
    ensures var r := PolledAll(topic, assignments, maxBytes, AnswersOf(m, route));
      && r.Success? && |r.value.assignments| == |outputs| == |assignments| && r.value.records == AllOf(outputs)
      && forall i :: 0 <= i < |assignments| ==>
           CursorMoved(m, topic, assignments[i], r.value.assignments[i], outputs[i])
  {
    hide Formed, FetchedFrom, PolledAll, PolledSource, IsInternalTopic, CursorMoved, OwnAnswered, AssignmentPolled;
    var answers := AnswersOf(m, route);
    forall i | 0 <= i < |assignments| ensures RetryAnswered(topic, assignments[i], maxBytes, answers, 2 * i + 1) {
      MissingTopic(m, FetchRequest(RETRY_PREFIX + topic, assignments[i].partition, assignments[i].retryNext, maxBytes),
                   RETRY_PROTOCOL_VERSION, route(2 * i + 1));
    }
    RoundSucceedsIff(topic, assignments, maxBytes, answers);
    var retry;
    outputs, retry := RoundPollsEach(topic, assignments, maxBytes, answers);
    var r := PolledAll(topic, assignments, maxBytes, answers);
    forall i | 0 <= i < |assignments|
      ensures CursorMoved(m, topic, assignments[i], r.value.assignments[i], outputs[i]) && retry[i] == [] {
      OneCursorMoved(opts, m, route, topic, assignments[i], r.value.assignments[i], maxBytes, i, outputs[i], retry[i]);
    }
    OnlyOwn(outputs, retry);
  }

  /** What a round does to one assignment of a topic without a retry topic. */
  predicate CursorMoved(m: Moment, topic: bytes, a: Assignment, a': Assignment, output: seq<ConsumerRecord>) {
    var k := Key(topic, a.partition);
    && a' == Assignment(a.partition, a'.next, a.retryNext) && 0 <= a.next <= a'.next
    && NextOffset(LogAt(m.topics, k)) < TWO_63
    && (a.next < a'.next <==> a.next < NextOffset(LogAt(m.topics, k)))
    && (a.next < a'.next ==> a'.next <= NextOffset(LogAt(m.topics, k)))
    && output == Slice(m.topics, k, a.next, a'.next)
  }

  lemma MissingTopic(m: Moment, f: FetchRequest, version: u16, start: nat)
    requires f.topic !in m.topics && f.offset >= 0 && f.maxBytes > 0
    ensures FetchedFrom(m.topics, m.visibility, f, version, start) == Failure(TopicNotFound)
  {
  }

  lemma OneCursorMoved(opts: RetryOptions, m: Moment, route: nat -> nat, topic: bytes, a: Assignment, a': Assignment,
                       maxBytes: u32, i: nat, own: seq<ConsumerRecord>, retry: seq<ConsumerRecord>)
    requires Formed(opts, m.topics) && !IsInternalTopic(topic) && RETRY_PREFIX + topic !in m.topics && maxBytes > 0
    requires a.next >= 0 && a.retryNext >= 0
    requires OwnAnswered(topic, a, maxBytes, AnswersOf(m, route), 2 * i)
    requires AssignmentPolled(topic, a, a', maxBytes, AnswersOf(m, route), 2 * i, own, retry)
    ensures CursorMoved(m, topic, a, a', own) && retry == []
  {
    hide Formed, FetchedFrom, IsInternalTopic, Slice, Fresh, FlatRecords;
    MissingTopic(m, FetchRequest(RETRY_PREFIX + topic, a.partition, a.retryNext, maxBytes),
                 VersionFor(RETRY_PREFIX + topic), route(2 * i + 1));
    var now := m.(start := route(2 * i));
    RoundDelivers(opts, now, topic, 0, a.partition, a.next, maxBytes);
    if a.next < NextOffset(LogAt(m.topics, Key(topic, a.partition))) {
      EmptyLog();
      NotInternalNotRetry(topic);
      RoundProgresses(opts, now, topic, 0, a.partition, a.next, maxBytes);
    }
  }

  lemma NotInternalNotRetry(topic: bytes)
    ensures !IsInternalTopic(topic) ==> !IsRetryTopic(topic)
  {
  }

  lemma {:induction false} OnlyOwn(own: seq<seq<ConsumerRecord>>, retry: seq<seq<ConsumerRecord>>)
    requires |own| == |retry| && forall i :: 0 <= i < |own| ==> retry[i] == []
    ensures Interleaved(own, retry) == AllOf(own)
  {
    if own != [] {
      OnlyOwn(own[..|own| - 1], retry[..|own| - 1]);
    }
  }

  /** A round over a topic that is not there fails, and says so. */
  lemma RoundWithoutTopic(m: Moment, route: nat -> nat, topic: bytes, assignments: seq<Assignment>, maxBytes: u32)
    requires topic !in m.topics && assignments != [] && assignments[0].next >= 0 && maxBytes > 0
    ensures PolledAll(topic, assignments, maxBytes, AnswersOf(m, route)) == Failure(TopicNotFound)
  {
    hide FetchedFrom, IsInternalTopic;
    MissingTopic(m, FetchRequest(topic, assignments[0].partition, assignments[0].next, maxBytes), VersionFor(topic),
                 route(0));
    assert assignments[..1][..0] == [];
    assert PolledAll(topic, [], maxBytes, AnswersOf(m, route)) == Success(Polled([], []));
    PolledAllStops(topic, assignments, maxBytes, AnswersOf(m, route), 1);
  }
}
