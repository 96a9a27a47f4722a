/** Whole runs of the broker: topics are created, messages produced and nacked, the clock ticks, and
    the broker restarts on whatever prefix of each log survived. */
module BrokerRuns {
  import opened Basics
  import opened PartitionLogs
  import opened Protocol
  import opened RetryCodec
  import opened RetrySchedulers
  import opened Topics
  import opened Broker
  import opened RetryLineage
  import opened NackProofs
  import opened RetryStart
  import opened BrokerLogs
  import opened BrokerRestarts
  import Runs = RetryRuns
  import Restarts = RetryRestarts

  /** The topic logs and the scheduler; unpublished is the retry a nack has appended and not yet handed
      to the scheduler, which happens later and under another lock. */
  datatype State = State(topics: TopicMap, unpublished: Option<RetryTask>,
                         tasks: multiset<RetryTask>, visibility: map<Key, Visibility>)

  const INITIAL: State := State(map[], None, multiset{}, map[])

  datatype Event =
    | Create(topic: bytes, count: u32)
    | Produce(topic: bytes, partition: i32, records: seq<ProtocolRecord>, chosen: i32)
    | Nack(request: NackRequest, start: nat, now: Millis)
    | Publish(later: Millis)
    | Tick(reading: Millis)
    | Restart(kept: TopicMap, reading: Millis)

  /** The retry a nack leaves to be published, if it makes one. */
  function TaskOf(reply: Reply<NackDone>): Option<RetryTask> {
    if reply.Failure? || reply.value.deadLetter then None
    else
      var done := reply.value;
      Some(RetryTask(Key(done.topic, done.partition), done.offset, done.retry.nextVisibleTime))
  }

  ghost predicate Step(opts: RetryOptions, s: State, e: Event, s': State)
    requires opts.Valid()
  {
    match e
    case Create(topic, count) => s' == s.(topics := TopicCreated(s.topics, topic, count).0)
    case Produce(topic, partition, records, chosen) =>
      // the records of one Produce frame
      WireSize(records) <= MAX_FRAME_BYTES
      && s' == s.(topics := Produced(s.topics, topic, partition, records, chosen).0)
    case Nack(n, start, now) =>
      // the nack lock is held until the retry is published
      s.unpublished.None? && NackStep(opts, s, n, start, now, s')
    case Publish(later) =>
      s.unpublished.Some? && s'.topics == s.topics && s'.unpublished.None?
      && Settled(s.tasks + multiset{s.unpublished.value}, s.visibility, later, s'.tasks, s'.visibility)
    case Tick(now) =>
      s'.topics == s.topics && s'.unpublished == s.unpublished
      && Settled(s.tasks, s.visibility, now, s'.tasks, s'.visibility)
    case Restart(kept, now) =>
      CutShort(s.topics, kept) && s'.topics == kept && s'.unpublished.None?
      && Runs.Rebuilt(RetryLogs(kept), now, s'.tasks, s'.visibility)
  }

  predicate NackStep(opts: RetryOptions, s: State, n: NackRequest, start: nat, now: Millis, s': State)
    requires opts.Valid()
  {
    var (topics', reply) := Nacked(opts, s.topics, s.visibility, n, start, now);
    s' == s.(topics := topics', unpublished := TaskOf(reply))
  }

  ghost predicate IsRun(opts: RetryOptions, states: seq<State>, events: seq<Event>)
    requires opts.Valid()
  {
    && |states| == |events| + 1
    && states[0] == INITIAL
    && forall i :: 0 <= i < |events| ==> StepAt(opts, states, events, i)
  }

  ghost predicate StepAt(opts: RetryOptions, states: seq<State>, events: seq<Event>, i: nat)
    requires opts.Valid() && i < |events| && |states| == |events| + 1
  {
    Step(opts, states[i], events[i], states[i + 1])
  }

  // ---- The form of the logs over a run ----

  lemma StepKeepsFormed(opts: RetryOptions, s: State, e: Event, s': State)
    requires opts.Valid() && Formed(opts, s.topics) && Step(opts, s, e, s')
    ensures Formed(opts, s'.topics)
    ensures !e.Restart? ==> Extends(s.topics, s'.topics)
  {
    hide Formed, Extends, Nacked, Produced, TopicCreated, Settled, WireSize, Runs.Rebuilt, CutShort;
    SameExtends(s.topics);
    match e
    case Create(topic, count) => CreateKeeps(opts, s.topics, topic, count);
    case Produce(topic, partition, records, chosen) => ProduceKeeps(opts, s.topics, topic, partition, records, chosen);
    case Nack(n, start, now) => NackKeepsFormed(opts, s.topics, s.visibility, n, start, now);
    case Publish(_) =>
    case Tick(_) =>
    case Restart(kept, _) => CutKeepsFormed(opts, s.topics, kept);
  }

  lemma InitialFormed(opts: RetryOptions)
    ensures Formed(opts, INITIAL.topics) && Rooted(INITIAL.topics)
  {
  }

  /** In every run every log keeps its form: the counts, topics and sizes of internal records are right. */
  lemma {:induction false} RunKeepsFormed(opts: RetryOptions, states: seq<State>, events: seq<Event>, n: nat)
    requires opts.Valid() && IsRun(opts, states, events) && n < |states|
    ensures Formed(opts, states[n].topics)
  {
    hide Step, Formed;
    if n == 0 {
      InitialFormed(opts);
    } else {
      RunKeepsFormed(opts, states, events, n - 1);
      assert StepAt(opts, states, events, n - 1);
      StepKeepsFormed(opts, states[n - 1], events[n - 1], states[n]);
    }
  }

  // ---- Lineage over a run ----

  /** No step but a restart that loses an original can break the lineage of a retry record. */
  lemma StepKeepsRooted(opts: RetryOptions, s: State, e: Event, s': State)
    requires opts.Valid() && Formed(opts, s.topics) && Rooted(s.topics) && Step(opts, s, e, s')
    ensures Rooted(s'.topics) <==> e.Restart? ==> OriginalsKept(e.kept)
  {
    hide Formed, Rooted, Extends, Nacked, Produced, TopicCreated, Settled, WireSize, OriginalsKept, Runs.Rebuilt,
      CutShort;
    match e
    case Create(topic, count) => CreateKeeps(opts, s.topics, topic, count);
    case Produce(topic, partition, records, chosen) => ProduceKeeps(opts, s.topics, topic, partition, records, chosen);
    case Nack(n, start, now) => NackKeepsRooted(opts, s.topics, s.visibility, n, start, now);
    case Publish(_) =>
    case Tick(_) =>
    case Restart(kept, _) => CutKeepsRootedIff(s.topics, kept);
  }

  /** A restart of the run that loses no original. */
  predicate Lossless(e: Event) {
    e.Restart? ==> OriginalsKept(e.kept)
  }

  /** In every run whose restarts lose no original, every record ever in a retry or dead-letter log
      carries the key, value and timestamp of its original. */
  lemma {:induction false} RunKeepsLineage(opts: RetryOptions, states: seq<State>, events: seq<Event>, n: nat)
    requires opts.Valid() && IsRun(opts, states, events) && n < |states|
    requires forall i :: 0 <= i < n ==> Lossless(events[i])
    ensures Rooted(states[n].topics)
  {
    hide Step, Formed, Rooted, OriginalsKept;
    if n == 0 {
      InitialFormed(opts);
    } else {
      RunKeepsLineage(opts, states, events, n - 1);
      RunKeepsFormed(opts, states, events, n - 1);
      assert StepAt(opts, states, events, n - 1);
      assert Lossless(events[n - 1]);
      StepKeepsRooted(opts, states[n - 1], events[n - 1], states[n]);
    }
  }

  // ---- Restarting after any run ----

  /** The deadlines a nack computes are positive. */
  predicate ClockStarted(opts: RetryOptions, e: Event) {
    e.Nack? ==> DeadlinePositive(opts, e.now)
  }

  lemma CutKeepsDated(topics: TopicMap, kept: TopicMap)
    requires Dated(topics) && CutShort(topics, kept)
    ensures Dated(kept)
  {
    hide RetryLogs, CutShort;
    CutCutsRetryLogs(topics, kept);
    var logs, logs' := RetryLogs(topics), RetryLogs(kept);
    forall k: Key, i: nat | i < |Runs.Log(logs', k)| ensures Runs.Log(logs', k)[i] > 0 {
      assert Runs.Log(logs', k)[i] == Runs.Log(logs, k)[i];
    }
  }

  lemma StepKeepsDated(opts: RetryOptions, s: State, e: Event, s': State)
    requires opts.Valid() && Formed(opts, s.topics) && Dated(s.topics) && Step(opts, s, e, s') && ClockStarted(opts, e)
    ensures Dated(s'.topics)
  {
    hide Formed, RetryLogs, Nacked, Produced, TopicCreated, Settled, WireSize, Runs.Rebuilt, CutShort, AllPositive,
      DeadlinePositive, NackAccepted;
    match e
    case Create(topic, count) => CreateKeepsRetryLogs(s.topics, topic, count);
    case Produce(topic, partition, records, chosen) =>
      ProduceKeepsRetryLogs(s.topics, topic, partition, records, chosen);
    case Nack(n, start, now) => NackKeepsDated(opts, s.topics, s.visibility, n, start, now);
    case Publish(_) =>
    case Tick(_) =>
    case Restart(kept, _) => CutKeepsDated(s.topics, kept);
  }

  /** A run whose nacks compute positive deadlines stores no deadline 0. */
  lemma {:induction false} RunKeepsDated(opts: RetryOptions, states: seq<State>, events: seq<Event>, n: nat)
    requires opts.Valid() && IsRun(opts, states, events) && n < |states|
    requires forall i :: 0 <= i < n ==> ClockStarted(opts, events[i])
    ensures Dated(states[n].topics)
  {
    hide Step, Formed, Dated, ClockStarted;
    if n == 0 {
      InitialDated();
    } else {
      RunKeepsDated(opts, states, events, n - 1);
      RunKeepsFormed(opts, states, events, n - 1);
      assert StepAt(opts, states, events, n - 1);
      StepKeepsDated(opts, states[n - 1], events[n - 1], states[n]);
    }
  }

  lemma InitialDated()
    ensures Dated(INITIAL.topics)
  {
  }

  /** Any run can be interrupted at any moment: whatever prefixes of the logs survive, Start accepts them
      if and only if partition ids fit and no surviving retry has the deadline 0, which none has when
      every nack of the run computed a positive one. */
  lemma ReachableRestart(opts: RetryOptions, states: seq<State>, events: seq<Event>, kept: TopicMap, routes: Routes)
    requires opts.Valid() && IsRun(opts, states, events) && CutShort(states[|events|].topics, kept)
    ensures StartAccepts(kept, routes) <==> Addressable(kept) && Dated(kept)
    ensures (forall i :: 0 <= i < |events| ==> ClockStarted(opts, events[i])) ==> Dated(kept)
  {
    hide Formed, CutShort, StartAccepts, Addressable, Dated, ClockStarted, StepAt;
    RunKeepsFormed(opts, states, events, |events|);
    WrittenLogsStart(opts, states[|events|].topics, kept, routes);
    if forall i :: 0 <= i < |events| ==> ClockStarted(opts, events[i]) {
      RunKeepsDated(opts, states, events, |events|);
      CutKeepsDated(states[|events|].topics, kept);
    }
  }

  // ---- Chains of nacks in a run ----

  /** The nack answered at step i: the link it is in a chain. */
  ghost function LinkAt(opts: RetryOptions, states: seq<State>, events: seq<Event>, i: nat): Link
    requires opts.Valid() && IsRun(opts, states, events) && SucceedsAt(opts, states, events, i)
  {
    var s, e := states[i], events[i];
    Link(s.topics, s.visibility, e.request, e.start, e.now, states[i + 1].topics,
         Nacked(opts, s.topics, s.visibility, e.request, e.start, e.now).1.value)
  }

  predicate SucceedsAt(opts: RetryOptions, states: seq<State>, events: seq<Event>, i: nat)
    requires opts.Valid()
  {
    i < |events| && i < |states| && events[i].Nack?
    && var (s, e) := (states[i], events[i]);
       Nacked(opts, s.topics, s.visibility, e.request, e.start, e.now).1.Success?
  }

  /** The nack at step j is about the record the nack at step i made, and no restart in between lost it. */
  ghost predicate Continues(opts: RetryOptions, states: seq<State>, events: seq<Event>, i: nat, j: nat)
    requires opts.Valid() && IsRun(opts, states, events)
  {
    && i < j && SucceedsAt(opts, states, events, i) && SucceedsAt(opts, states, events, j)
    && var done := LinkAt(opts, states, events, i).done;
       && events[j].request.topic == done.topic && events[j].request.partition == done.partition
       && events[j].request.offset == done.offset
       && forall k :: i < k < j && events[k].Restart? ==>
            HoldsRetry(events[k].kept, done.topic, done.partition, done.offset, done.retry)
  }

  lemma {:induction false} RunHoldsRetry(opts: RetryOptions, states: seq<State>, events: seq<Event>, i: nat, j: nat,
                                         topic: bytes, partition: i32, offset: int, m: RetryMetadata)
    requires opts.Valid() && IsRun(opts, states, events) && i <= j < |states|
    requires HoldsRetry(states[i].topics, topic, partition, offset, m)
    requires forall k :: i <= k < j && events[k].Restart? ==> HoldsRetry(events[k].kept, topic, partition, offset, m)
    ensures HoldsRetry(states[j].topics, topic, partition, offset, m)
    decreases j - i
  {
    hide Step, Formed, Extends, HoldsRetry;
    if i < j {
      RunKeepsFormed(opts, states, events, i);
      assert StepAt(opts, states, events, i);
      StepKeepsFormed(opts, states[i], events[i], states[i + 1]);
      if events[i].Restart? {
        RestartKeeps(opts, states[i], events[i], states[i + 1]);
      } else {
        HoldsRetryStays(states[i].topics, states[i + 1].topics, topic, partition, offset, m);
      }
      RunHoldsRetry(opts, states, events, i + 1, j, topic, partition, offset, m);
    }
  }

  lemma RestartKeeps(opts: RetryOptions, s: State, e: Event, s': State)
    requires opts.Valid() && e.Restart? && Step(opts, s, e, s')
    ensures s'.topics == e.kept
  {
  }

  lemma LinkOfStep(opts: RetryOptions, states: seq<State>, events: seq<Event>, i: nat)
    requires opts.Valid() && IsRun(opts, states, events) && SucceedsAt(opts, states, events, i)
    ensures IsLink(opts, LinkAt(opts, states, events, i))
  {
    hide Formed, Nacked, Settled;
    RunKeepsFormed(opts, states, events, i);
    assert StepAt(opts, states, events, i);
  }

  lemma LinksFollow(opts: RetryOptions, states: seq<State>, events: seq<Event>, i: nat, j: nat)
    requires opts.Valid() && IsRun(opts, states, events) && Continues(opts, states, events, i, j)
    ensures Follows(LinkAt(opts, states, events, i), LinkAt(opts, states, events, j))
  {
    hide StepAt, IsLink, HoldsRetry, Nacked;
    var l := LinkAt(opts, states, events, i);
    LinkOfStep(opts, states, events, i);
    LinkCounts(opts, l);
    RunHoldsRetry(opts, states, events, i + 1, j, l.done.topic, l.done.partition, l.done.offset, l.done.retry);
  }

  /** Steps of the run that nack a message, then the retry made of it, and so on. */
  ghost predicate IsRunChain(opts: RetryOptions, states: seq<State>, events: seq<Event>, at: seq<nat>)
    requires opts.Valid() && IsRun(opts, states, events)
  {
    && (forall k :: 0 <= k < |at| ==> SucceedsAt(opts, states, events, at[k]))
    && forall k, l :: 0 <= k < l < |at| && l == k + 1 ==> Continues(opts, states, events, at[k], at[l])
  }

  /** In every run, nacking a message, then the retry made of it, and so on, gives up: of a sequence of
      such nacks that starts at an ordinary message the (i + 1)-st counts i + 1, all up to the last retry
      go to its retry topic, the next goes to its dead-letter topic, and there is none after it. Restarts
      in between may cut logs short as long as they do not lose the record itself. */
  lemma RunChainEnds(opts: RetryOptions, states: seq<State>, events: seq<Event>, at: seq<nat>, i: nat)
    requires opts.Valid() && IsRun(opts, states, events) && IsRunChain(opts, states, events, at) && i < |at|
    ensures |at| <= opts.maxRetries + 1
    ensures SucceedsAt(opts, states, events, at[0]) && SucceedsAt(opts, states, events, at[i])
    ensures !IsRetryTopic(events[at[0]].request.topic) ==>
      var done := LinkAt(opts, states, events, at[i]).done;
      && done.retry.retryCount == i + 1 && (done.deadLetter <==> i == opts.maxRetries)
      && done.topic == (if i == opts.maxRetries then DLQ_PREFIX else RETRY_PREFIX) + events[at[0]].request.topic
  {
    hide StepAt, IsLink, Follows, Continues, Nacked, IsRetryTopic;
    var links := seq(|at|, k requires 0 <= k < |at| => LinkAt(opts, states, events, at[k]));
    forall k | 0 <= k < |links| ensures IsLink(opts, links[k]) {
      LinkOfStep(opts, states, events, at[k]);
    }
    forall k, l | 0 <= k < l < |links| && l == k + 1 ensures Follows(links[k], links[l]) {
      LinksFollow(opts, states, events, at[k], at[l]);
    }
    assert IsChain(opts, links);
    NackChainEnds(opts, links, i);
  }

  // ---- The broker runs the retry protocol ----

  ghost function Abstract(s: State): Runs.State {
    Runs.State(RetryLogs(s.topics),
               if s.unpublished.None? then None
               else Some(Runs.Unpublished(s.unpublished.value.key, s.unpublished.value.offset)),
               s.tasks, s.visibility)
  }

  /** What a broker event is to the retry protocol; one that touches no retry log is like a fetch. */
  function AbstractEvent(opts: RetryOptions, s: State, e: Event): Runs.Event
    requires opts.Valid()
  {
    match e
    case Nack(n, start, now) =>
      var task := TaskOf(Nacked(opts, s.topics, s.visibility, n, start, now).1);
      if task.Some? then Runs.NackAppend(task.value.key, task.value.time) else Runs.Fetch(Key(n.topic, n.partition))
    case Publish(later) => Runs.NackPublish(later)
    case Tick(now) => Runs.Tick(now)
    case Restart(_, now) => Runs.Restart(now)
    case _ => Runs.Fetch(Key(e.topic, 0))
  }

  /** The retry about to be published is in its log. */
  ghost predicate UnpublishedStored(s: State) {
    s.unpublished.Some? ==> Runs.IsTask(RetryLogs(s.topics), s.unpublished.value)
  }

  lemma NackRefines(opts: RetryOptions, s: State, n: NackRequest, start: nat, now: Millis, s': State)
    requires opts.Valid() && s.unpublished.None? && NackStep(opts, s, n, start, now, s')
    ensures UnpublishedStored(s')
    ensures Runs.Step(Abstract(s), AbstractEvent(opts, s, Event.Nack(n, start, now)), Abstract(s'))
  {
    hide Nacked, RetryLogs, Settled;
    NackGrowsRetryLogs(opts, s.topics, s.visibility, n, start, now);
    NackPartition(opts, s.topics, s.visibility, n, start, now);
  }

  lemma NackPartition(opts: RetryOptions, topics: TopicMap, visibility: map<Key, Visibility>, n: NackRequest,
                      start: nat, now: Millis)
    requires opts.Valid()
    ensures var reply := Nacked(opts, topics, visibility, n, start, now).1;
      reply.Success? ==> reply.value.partition == n.partition
  {
    hide EncodedRetryRecord, NackSource, Attempted, AppendTo, NextOffset, Created, Destination, DeadLetter;
  }

  /** Every step of the broker is one step of the retry protocol. */
  lemma StepRefines(opts: RetryOptions, s: State, e: Event, s': State)
    requires opts.Valid() && UnpublishedStored(s) && Step(opts, s, e, s')
    ensures UnpublishedStored(s')
    ensures Runs.Step(Abstract(s), AbstractEvent(opts, s, e), Abstract(s'))
  {
    hide RetryLogs, Settled, Produced, TopicCreated, WireSize, Runs.Rebuilt, Runs.CutShort, CutShort;
    match e
    case Create(topic, count) => CreateKeepsRetryLogs(s.topics, topic, count);
    case Produce(topic, partition, records, chosen) =>
      ProduceKeepsRetryLogs(s.topics, topic, partition, records, chosen);
    case Nack(n, start, now) => NackRefines(opts, s, n, start, now, s');
    case Publish(later) =>
    case Tick(now) =>
    case Restart(kept, now) => CutCutsRetryLogs(s.topics, kept);
  }

  ghost function AbstractStates(states: seq<State>): (r: seq<Runs.State>)
    ensures |r| == |states| && forall i :: 0 <= i < |r| ==> r[i] == Abstract(states[i])
  {
    seq(|states|, i requires 0 <= i < |states| => Abstract(states[i]))
  }

  function AbstractEvents(opts: RetryOptions, states: seq<State>, events: seq<Event>): (r: seq<Runs.Event>)
    requires opts.Valid() && |states| == |events| + 1
    ensures |r| == |events| && forall i :: 0 <= i < |r| ==> r[i] == AbstractEvent(opts, states[i], events[i])
  {
    seq(|events|, i requires 0 <= i < |events| => AbstractEvent(opts, states[i], events[i]))
  }

  lemma {:induction false} RunUnpublishedStored(opts: RetryOptions, states: seq<State>, events: seq<Event>, n: nat)
    requires opts.Valid() && IsRun(opts, states, events) && n < |states|
    ensures UnpublishedStored(states[n])
  {
    hide Step, AbstractEvent, Runs.Step;
    if n > 0 {
      RunUnpublishedStored(opts, states, events, n - 1);
      assert StepAt(opts, states, events, n - 1);
      StepRefines(opts, states[n - 1], events[n - 1], states[n]);
    }
  }

  /** Every run of the broker is, state by state, a run of the retry protocol, interruptions between the
      append and the publication of a nack included: what holds of all those runs, holds of the broker's
      retry logs and scheduler. */
  lemma RunsRefineRetryRuns(opts: RetryOptions, states: seq<State>, events: seq<Event>)
    requires opts.Valid() && IsRun(opts, states, events)
    ensures Runs.IsRun(AbstractStates(states), AbstractEvents(opts, states, events))
  {
    hide Step, Runs.Step, Abstract, AbstractEvent, UnpublishedStored;
    InitialAbstract();
    var astates, aevents := AbstractStates(states), AbstractEvents(opts, states, events);
    forall i | 0 <= i < |aevents| ensures Runs.StepAt(astates, aevents, i) {
      RunUnpublishedStored(opts, states, events, i);
      assert StepAt(opts, states, events, i);
      StepRefines(opts, states[i], events[i], states[i + 1]);
    }
  }

  lemma InitialAbstract()
    ensures Abstract(INITIAL) == Runs.INITIAL
  {
  }

  /** In every reachable state each retry record is in exactly one place, and consumers see the longest
      released prefix of each retry log. */
  lemma ReachableVisibility(opts: RetryOptions, states: seq<State>, events: seq<Event>, n: nat, key: Key)
    requires opts.Valid() && IsRun(opts, states, events) && n < |states|
    ensures var s := states[n];
      Runs.Invariant(Abstract(s)) && At(s.visibility, key).end <= |Runs.Log(RetryLogs(s.topics), key)|
  {
    hide IsRun, RetryLogs, Runs.IsRun, Runs.Invariant;
    RunLengths(opts, states, events);
    RunsRefineRetryRuns(opts, states, events);
    Runs.RunKeepsInvariant(AbstractStates(states), AbstractEvents(opts, states, events), n);
    Runs.EndIsLongestReleasedPrefix(Abstract(states[n]), key);
  }

  lemma RunLengths(opts: RetryOptions, states: seq<State>, events: seq<Event>)
    requires opts.Valid() && IsRun(opts, states, events)
    ensures |states| == |events| + 1
  {
  }

  /** In every run, between restarts, what consumers of a retry partition can see only grows. */
  lemma RunVisibleEndMonotone(opts: RetryOptions, states: seq<State>, events: seq<Event>, i: nat, j: nat, key: Key)
    requires opts.Valid() && IsRun(opts, states, events) && i <= j < |states|
    requires forall k :: i <= k < j ==> !events[k].Restart?
    ensures At(states[i].visibility, key).end <= At(states[j].visibility, key).end
  {
    hide StepAt, RetryLogs, Runs.IsRun, Nacked;
    RunsRefineRetryRuns(opts, states, events);
    Runs.RunVisibleEndMonotone(AbstractStates(states), AbstractEvents(opts, states, events), i, j, key);
  }

  // ---- Restarting makes no difference under a steady clock ----

  /** The clock never runs backwards along the run; clocks[i] is the last reading before state i. */
  ghost predicate Steady(opts: RetryOptions, states: seq<State>, events: seq<Event>, clocks: seq<u64>)
    requires opts.Valid() && |states| == |events| + 1
  {
    Restarts.Steady(AbstractEvents(opts, states, events), clocks)
  }

  /** The scheduler brought up to date: a pending retry is published, otherwise the clock ticks. */
  function Onward(s: State, now: Millis): Event {
    if s.unpublished.Some? then Publish(now) else Tick(now)
  }

  lemma OnwardRefines(opts: RetryOptions, s: State, now: Millis, s': State)
    requires opts.Valid() && UnpublishedStored(s) && Step(opts, s, Onward(s, now), s')
    ensures Runs.Step(Abstract(s), Restarts.Onward(Abstract(s), now), Abstract(s'))
  {
    hide Step, RetryLogs, Runs.Step;
    StepRefines(opts, s, Onward(s, now), s');
  }

  lemma RestartRefines(opts: RetryOptions, s: State, kept: TopicMap, now: Millis, s': State)
    requires opts.Valid() && UnpublishedStored(s) && Step(opts, s, Restart(kept, now), s')
    ensures Runs.Step(Abstract(s), Runs.Restart(now), Abstract(s')) && s'.topics == kept
  {
    hide RetryLogs, Runs.Step, Runs.Rebuilt, CutShort;
    StepRefines(opts, s, Restart(kept, now), s');
  }

  /** In every run whose clock has not run backwards, restarting on what is left of the logs shows, of
      every retry partition, exactly what carrying on would have shown of what is left; that holds even
      between the append and the publication of a nack. */
  lemma RestartChangesNothing(opts: RetryOptions, states: seq<State>, events: seq<Event>, clocks: seq<u64>,
                              kept: TopicMap, now: Millis, carriedOn: State, restarted: State, key: Key)
    requires opts.Valid() && IsRun(opts, states, events) && Steady(opts, states, events, clocks)
    requires clocks[|events|] <= now
    requires Step(opts, states[|events|], Onward(states[|events|], now), carriedOn)
    requires Step(opts, states[|events|], Restart(kept, now), restarted)
    ensures At(restarted.visibility, key).end
         == Min(At(carriedOn.visibility, key).end, |Runs.Log(RetryLogs(kept), key)|)
  {
    hide Step, StepAt, RetryLogs, UnpublishedStored, Onward, Runs.Step, Runs.IsRun, Runs.Invariant, Restarts.InStep;
    var n, s := |events|, states[|events|];
    RunsRefineRetryRuns(opts, states, events);
    Restarts.SteadyRunInStep(AbstractStates(states), AbstractEvents(opts, states, events), clocks, n);
    ReachableVisibility(opts, states, events, n, key);
    RunUnpublishedStored(opts, states, events, n);
    OnwardRefines(opts, s, now, carriedOn);
    RestartRefines(opts, s, kept, now, restarted);
    Restarts.RestartEquivalent(Abstract(s), clocks[n], now, Abstract(carriedOn), Abstract(restarted), key);
  }
}
