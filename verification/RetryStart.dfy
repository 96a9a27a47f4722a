/** RetryScheduler::Start: the queue is rebuilt by reading every internal log from the beginning. */
module RetryStart {
  import opened Basics
  import opened Records
  import opened PartitionLogs
  import opened RetryCodec
  import opened RetrySchedulers
  import opened RetryRuns
  import opened Topics

  // ---- The deadlines the retry logs hold ----

  function DeadlineOf(stored: Record): u64 {
    var decoded := DecodedRetryRecord(stored);
    if decoded.Ok? then decoded.value.retry.value.nextVisibleTime else 0
  }

  function Deadlines(records: seq<Record>): (ds: seq<u64>)
    ensures |ds| == |records| && forall i :: 0 <= i < |records| ==> ds[i] == DeadlineOf(records[i])
  {
    if records == [] then []
    else Deadlines(records[..|records| - 1]) + [DeadlineOf(records[|records| - 1])]
  }

  ghost function Partitions(topics: TopicMap): set<Key> {
    set t, p: i32 | t in topics && 0 <= p < |topics[t]| :: Key(t, p)
  }

  /** The retry logs as RetryRuns sees them: the deadlines of each partition that has any. */
  ghost function RetryLogs(topics: TopicMap): map<Key, seq<u64>> {
    map k | k in Partitions(topics) && IsRetryTopic(k.topic) && NextOffset(LogAt(topics, k)) > 0
      :: Deadlines(FlatRecords(LogAt(topics, k)))
  }

  lemma RetryLogAt(topics: TopicMap, k: Key)
    ensures Log(RetryLogs(topics), k)
         == if IsRetryTopic(k.topic) then Deadlines(FlatRecords(LogAt(topics, k))) else []
  {
    hide FlatRecords, IsRetryTopic;
    assert NextOffset([]) == 0 by { EmptyLog(); }
    if !HasPartition(topics, k.topic, k.partition) { EmptyLog(); }
  }

  // ---- What Start accepts ----

  /** Where the index of each partition sends the read of each offset. */
  type Routes = (bytes, nat, nat) -> nat

  predicate RecordAccepted(topic: bytes, id: nat, stored: Record) {
    var decoded := DecodedRetryRecord(stored);
    decoded.Ok? &&
    var m := decoded.value.retry.value;
    && m.originalTopic == OriginalOf(topic) && m.originalPartition == id
    && (IsRetryTopic(topic) ==> m.nextVisibleTime != 0)
    && (IsDlqTopic(topic) ==> m.nextVisibleTime == 0)
  }

  predicate OffsetAccepted(topic: bytes, id: nat, log: PartitionLog, offset: nat, start: nat) {
    offset < TWO_63 &&
    var batch := ReadLog(log, offset, MAX_RETRY_BATCH_BYTES, start);
    batch.Ok? && batch.value.base == offset && |batch.value.records| == 1
    && RecordAccepted(topic, id, batch.value.records[0])
  }

  ghost predicate PartitionAccepted(topic: bytes, id: nat, log: PartitionLog, routes: Routes) {
    forall o: nat :: o < NextOffset(log) ==> OffsetAccepted(topic, id, log, o, routes(topic, id, o))
  }

  /** The id of a partition has to survive a cast to a signed one. */
  ghost predicate IdAccepted(topics: TopicMap, topic: bytes, id: nat, routes: Routes)
    requires topic in topics && id < |topics[topic]|
  {
    id < TWO_31 && PartitionAccepted(topic, id, topics[topic][id], routes)
  }

  ghost predicate TopicAccepted(topics: TopicMap, topic: bytes, routes: Routes)
    requires topic in topics
  {
    && OriginalOf(topic) in topics && |topics[OriginalOf(topic)]| == |topics[topic]|
    && forall id: nat :: id < |topics[topic]| ==> IdAccepted(topics, topic, id, routes)
  }

  ghost predicate StartAccepts(topics: TopicMap, routes: Routes) {
    forall t :: t in topics && IsInternalTopic(t) ==> TopicAccepted(topics, t, routes)
  }

  /** The tasks of the first n offsets of one partition. */
  ghost predicate TasksUpTo(topic: bytes, id: nat, log: PartitionLog, n: nat, tasks: multiset<RetryTask>)
    requires n <= NextOffset(log)
  {
    forall t :: tasks[t] ==
      if IsRetryTopic(topic) && t.key.topic == topic && t.key.partition == id && t.offset < n
         && DeadlineOf(FlatRecords(log)[t.offset]) == t.time then 1 else 0
  }

  method ScanPartition(topic: bytes, id: nat, log: PartitionLog, routes: Routes)
    returns (accepted: bool, tasks: multiset<RetryTask>)
    requires id < TWO_31
    ensures accepted <==> PartitionAccepted(topic, id, log, routes)
    ensures accepted ==> TasksUpTo(topic, id, log, NextOffset(log), tasks)
  {
    hide ReadLog, DecodedRetryRecord, IsRetryTopic, FlatRecords;
    tasks := multiset{};
    var end := NextOffset(log);
    var offset: nat := 0;
    while offset < end
      invariant offset <= end
      invariant forall o: nat :: o < offset ==> OffsetAccepted(topic, id, log, o, routes(topic, id, o))
      invariant TasksUpTo(topic, id, log, offset, tasks)
    {
      if !OffsetAccepted(topic, id, log, offset, routes(topic, id, offset)) {
        return false, multiset{};
      }
      var batch := ReadLog(log, offset, MAX_RETRY_BATCH_BYTES, routes(topic, id, offset)).value;
      var m := DecodedRetryRecord(batch.records[0]).value.retry.value;
      ReadFindsOffset(log, offset, MAX_RETRY_BATCH_BYTES, routes(topic, id, offset));
      if IsRetryTopic(topic) {
        tasks := tasks + multiset{RetryTask(Key(topic, id), offset, m.nextVisibleTime)};
      }
      offset := offset + 1;
    }
    return true, tasks;
  }

  lemma ReadFindsOffset(log: PartitionLog, offset: i64, maxBytes: nat, start: nat)
    requires 0 <= offset < NextOffset(log) && ReadLog(log, offset, maxBytes, start).Ok?
    ensures var b := ReadLog(log, offset, maxBytes, start).value;
      0 <= offset - b.base < |b.records| && b.records[offset - b.base] == FlatRecords(log)[offset]
  {
    hide FlatRecords, IndexOf, BaseOf, Within;
    BatchSpan(log, IndexOf(log, offset));
  }

  ghost predicate TasksBefore(topics: TopicMap, remaining: set<bytes>, topic: bytes, id: nat,
                              tasks: multiset<RetryTask>) {
    forall t :: tasks[t] ==
      if IsTask(RetryLogs(topics), t) && t.key.topic !in remaining && !(t.key.topic == topic && t.key.partition >= id)
      then 1 else 0
  }

  /** The tasks of all topics but the remaining ones. */
  ghost predicate TasksOutside(topics: TopicMap, remaining: set<bytes>, tasks: multiset<RetryTask>) {
    forall t :: tasks[t] == if IsTask(RetryLogs(topics), t) && t.key.topic !in remaining then 1 else 0
  }

  lemma TaskOfLog(topics: TopicMap, t: RetryTask)
    ensures IsTask(RetryLogs(topics), t) <==>
      && IsRetryTopic(t.key.topic) && HasPartition(topics, t.key.topic, t.key.partition)
      && t.offset < NextOffset(LogAt(topics, t.key))
      && DeadlineOf(FlatRecords(LogAt(topics, t.key))[t.offset]) == t.time
  {
    hide FlatRecords, IsRetryTopic, RetryLogs, DeadlineOf;
    RetryLogAt(topics, t.key);
    EmptyLog();
  }

  lemma OnePartitionMore(topics: TopicMap, remaining: set<bytes>, topic: bytes, id: nat,
                         before: multiset<RetryTask>, found: multiset<RetryTask>)
    requires topic in topics && topic !in remaining && id < |topics[topic]| && id < TWO_31
    requires TasksBefore(topics, remaining, topic, id, before)
    requires TasksUpTo(topic, id, topics[topic][id], NextOffset(topics[topic][id]), found)
    ensures TasksBefore(topics, remaining, topic, id + 1, before + found)
  {
    hide FlatRecords, IsRetryTopic, RetryLogs, DeadlineOf, IsTask;
    forall t ensures (before + found)[t] ==
      if IsTask(RetryLogs(topics), t) && t.key.topic !in remaining
         && !(t.key.topic == topic && t.key.partition >= id + 1)
      then 1 else 0 {
      TaskOfLog(topics, t);
    }
  }

  lemma TopicDone(topics: TopicMap, remaining: set<bytes>, topic: bytes, tasks: multiset<RetryTask>)
    requires topic in topics && TasksBefore(topics, remaining, topic, |topics[topic]|, tasks)
    ensures TasksOutside(topics, remaining, tasks)
  {
    hide FlatRecords, IsRetryTopic, RetryLogs, DeadlineOf, IsTask;
    forall t ensures tasks[t] == if IsTask(RetryLogs(topics), t) && t.key.topic !in remaining then 1 else 0 {
      TaskOfLog(topics, t);
    }
  }

  method ScanTopic(topics: TopicMap, remaining: set<bytes>, topic: bytes, routes: Routes, before: multiset<RetryTask>)
    returns (accepted: bool, tasks: multiset<RetryTask>)
    requires topic in topics && topic !in remaining && IsInternalTopic(topic)
    requires TasksBefore(topics, remaining, topic, 0, before)
    ensures accepted <==> TopicAccepted(topics, topic, routes)
    ensures accepted ==> TasksBefore(topics, remaining, topic, |topics[topic]|, tasks)
  {
    hide PartitionAccepted, TasksUpTo, TasksBefore, RetryLogs, NextOffset;
    tasks := before;
    if OriginalOf(topic) !in topics || |topics[OriginalOf(topic)]| != |topics[topic]| {
      return false, tasks;
    }
    var id: nat := 0;
    while id < |topics[topic]|
      invariant id <= |topics[topic]|
      invariant forall i: nat :: i < id ==> IdAccepted(topics, topic, i, routes)
      invariant TasksBefore(topics, remaining, topic, id, tasks)
    {
      if id >= TWO_31 {
        assert !IdAccepted(topics, topic, id, routes);
        return false, tasks;
      }
      var fine, found := ScanPartition(topic, id, topics[topic][id], routes);
      if !fine {
        assert !IdAccepted(topics, topic, id, routes);
        return false, tasks;
      }
      OnePartitionMore(topics, remaining, topic, id, tasks, found);
      tasks := tasks + found;
      id := id + 1;
    }
    return true, tasks;
  }

  /** The scan of Start, in whatever order the topics come: it succeeds exactly when every internal log
      is acceptable, and then has one task for each record of each retry log. */
  method ScanInternalTopics(topics: TopicMap, routes: Routes) returns (r: Option<multiset<RetryTask>>)
    ensures r.Some? <==> StartAccepts(topics, routes)
    ensures r.Some? ==> OneTaskEach(RetryLogs(topics), r.value)
  {
    hide TopicAccepted, RetryLogs, IsTask, IsRetryTopic, IsDlqTopic;
    var remaining, tasks: multiset<RetryTask> := topics.Keys, multiset{};
    NoTasksYet(topics);
    while remaining != {}
      invariant remaining <= topics.Keys
      invariant forall t :: t in topics && t !in remaining && IsInternalTopic(t) ==> TopicAccepted(topics, t, routes)
      invariant TasksOutside(topics, remaining, tasks)
      decreases |remaining|
    {
      var topic :| topic in remaining;
      remaining := remaining - {topic};
      if IsInternalTopic(topic) {
        TopicNext(topics, remaining, topic, tasks);
        var fine;
        fine, tasks := ScanTopic(topics, remaining, topic, routes, tasks);
        if !fine {
          return None;
        }
        TopicDone(topics, remaining, topic, tasks);
      } else {
        TopicSkipped(topics, remaining, topic, tasks);
      }
    }
    return Some(tasks);
  }

  lemma NoTasksYet(topics: TopicMap)
    ensures forall t: RetryTask :: t.key.topic !in topics ==> !IsTask(RetryLogs(topics), t)
  {
    hide IsTask, RetryLogs, FlatRecords, IsRetryTopic;
    forall t: RetryTask | t.key.topic !in topics ensures !IsTask(RetryLogs(topics), t) {
      TaskOfLog(topics, t);
    }
  }

  lemma TopicNext(topics: TopicMap, remaining: set<bytes>, topic: bytes, tasks: multiset<RetryTask>)
    requires topic !in remaining
    requires TasksOutside(topics, remaining + {topic}, tasks)
    ensures TasksBefore(topics, remaining, topic, 0, tasks)
  {
    hide IsTask, RetryLogs, FlatRecords, IsRetryTopic;
    forall t ensures tasks[t] ==
      if IsTask(RetryLogs(topics), t) && t.key.topic !in remaining && !(t.key.topic == topic && t.key.partition >= 0)
      then 1 else 0 {
      TaskOfLog(topics, t);
    }
  }

  lemma TopicSkipped(topics: TopicMap, remaining: set<bytes>, topic: bytes, tasks: multiset<RetryTask>)
    requires !IsInternalTopic(topic)
    requires TasksOutside(topics, remaining + {topic}, tasks)
    ensures TasksOutside(topics, remaining, tasks)
  {
    hide IsTask, RetryLogs, FlatRecords, IsRetryTopic;
    forall t ensures tasks[t] == if IsTask(RetryLogs(topics), t) && t.key.topic !in remaining then 1 else 0 {
      TaskOfLog(topics, t);
    }
  }

  /** Start, on the topic logs found at one reading of the clock: it does nothing when running already,
      refuses once closed, and otherwise succeeds exactly when every internal log is acceptable, leaving
      the queue and the visible ends rebuilt from the retry logs, whatever they were before. */
  method Start(scheduler: RetryScheduler, topics: TopicMap, routes: Routes, now: u64) returns (ok: bool)
    modifies scheduler
    ensures scheduler.stopped == old(scheduler.stopped)
    ensures if old(scheduler.running) || old(scheduler.stopped) then
        && ok == old(scheduler.running) == scheduler.running
        && scheduler.tasks == old(scheduler.tasks) && scheduler.visibility == old(scheduler.visibility)
      else
        && (ok <==> StartAccepts(topics, routes)) && scheduler.running == ok && scheduler.Valid()
        && if ok then Rebuilt(RetryLogs(topics), now, scheduler.tasks, scheduler.visibility)
           else scheduler.visibility == map[]
  {
    hide RetryLogs, StartAccepts, OneTaskEach, Settled;
    if scheduler.running {
      return true;
    }
    if scheduler.stopped {
      return false;
    }
    scheduler.tasks, scheduler.visibility := multiset{}, map[];
    var scanned := ScanInternalTopics(topics, routes);
    if scanned.None? {
      return false;
    }
    scheduler.tasks := scanned.value;
    scheduler.MakeDueVisible(now);
    scheduler.running := true;
    return true;
  }
}
