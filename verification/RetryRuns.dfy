/** Runs of the delayed-retry protocol: nacks append to a retry log and publish their deadline in a
    second step, the clock ticks, the broker restarts on what the logs still hold. */
module RetryRuns {
  import opened Basics
  import opened RetrySchedulers

  /** An appended record whose deadline has not been published yet. */
  datatype Unpublished = Unpublished(key: Key, offset: nat)

  /** The retry logs, as the deadlines of their records in offset order, and the scheduler. */
  datatype State = State(
    logs: map<Key, seq<u64>>, unpublished: Option<Unpublished>,
    tasks: multiset<RetryTask>, visibility: map<Key, Visibility>)

  const INITIAL: State := State(map[], None, multiset{}, map[])

  function Log(logs: map<Key, seq<u64>>, key: Key): seq<u64> {
    if key in logs then logs[key] else []
  }

  function End(s: State, key: Key): nat {
    At(s.visibility, key).end
  }

  // ---- Steps ----

  datatype Event =
    | NackAppend(key: Key, time: u64)
    | NackPublish(now: u64)
    | Tick(now: u64)
    | Fetch(key: Key)
    | Restart(now: u64)

  /** The task published for a record. */
  function TaskFor(logs: map<Key, seq<u64>>, key: Key, offset: nat): RetryTask
    requires offset < |Log(logs, key)|
  {
    RetryTask(key, offset, Log(logs, key)[offset])
  }

  /** The task belongs to a record that exists. */
  predicate IsTask(logs: map<Key, seq<u64>>, t: RetryTask) {
    t.offset < |Log(logs, t.key)| && Log(logs, t.key)[t.offset] == t.time
  }

  /** The queue Start builds: one task for each record of each retry log. */
  ghost predicate OneTaskEach(logs: map<Key, seq<u64>>, tasks: multiset<RetryTask>) {
    forall t :: tasks[t] == if IsTask(logs, t) then 1 else 0
  }

  /** A restart may find each log cut short. */
  ghost predicate CutShort(logs: map<Key, seq<u64>>, logs': map<Key, seq<u64>>) {
    forall k :: Log(logs', k) <= Log(logs, k)
  }

  ghost predicate Step(s: State, e: Event, s': State) {
    match e
    case NackAppend(key, time) =>
      // the nack lock admits one append that is not yet published
      s.unpublished.None?
      && s' == s.(logs := s.logs[key := Log(s.logs, key) + [time]],
                  unpublished := Some(Unpublished(key, |Log(s.logs, key)|)))
    case NackPublish(now) =>
      s.unpublished.Some? && s.unpublished.value.offset < |Log(s.logs, s.unpublished.value.key)|
      && s'.logs == s.logs && s'.unpublished.None?
      && Settled(s.tasks + multiset{TaskFor(s.logs, s.unpublished.value.key, s.unpublished.value.offset)},
                 s.visibility, now, s'.tasks, s'.visibility)
    case Tick(now) =>
      s'.logs == s.logs && s'.unpublished == s.unpublished
      && Settled(s.tasks, s.visibility, now, s'.tasks, s'.visibility)
    case Fetch(_) => s' == s
    case Restart(now) =>
      CutShort(s.logs, s'.logs) && s'.unpublished.None? && Rebuilt(s'.logs, now, s'.tasks, s'.visibility)
  }

  /** What Start leaves after rebuilding the queue from the logs at one reading of the clock. */
  ghost predicate Rebuilt(logs: map<Key, seq<u64>>, now: u64, tasks: multiset<RetryTask>,
                          visibility: map<Key, Visibility>) {
    exists all :: OneTaskEach(logs, all) && Settled(all, map[], now, tasks, visibility)
  }

  // ---- The invariant ----

  predicate Visible(s: State, key: Key, offset: nat) { offset < End(s, key) }
  predicate Ready(s: State, key: Key, offset: nat) { offset in At(s.visibility, key).ready }
  predicate Pending(s: State, key: Key, offset: nat)
    requires offset < |Log(s.logs, key)|
  {
    TaskFor(s.logs, key, offset) in s.tasks
  }
  predicate Waiting(s: State, key: Key, offset: nat) {
    s.unpublished == Some(Unpublished(key, offset))
  }

  function Count(b: bool): nat { if b then 1 else 0 }

  /** How many of the four places hold the record. */
  function Places(s: State, key: Key, offset: nat): nat
    requires offset < |Log(s.logs, key)|
  {
    Count(Visible(s, key, offset)) + Count(Ready(s, key, offset)) + Count(Pending(s, key, offset))
    + Count(Waiting(s, key, offset))
  }

  ghost predicate Invariant(s: State) {
    && AllNormal(s.visibility)
    && (forall t :: t in s.tasks ==> s.tasks[t] == 1 && IsTask(s.logs, t))
    && (s.unpublished.Some? ==> s.unpublished.value.offset < |Log(s.logs, s.unpublished.value.key)|)
    && (forall k, o :: o in Released(At(s.visibility, k)) ==> o < |Log(s.logs, k)|)
    && (forall k, o: nat :: o < |Log(s.logs, k)| ==> Places(s, k, o) == 1)
  }

  /** Visible and ready are the two halves of released, and never both. */
  lemma PlacesByRelease(s: State, key: Key, offset: nat)
    requires AllNormal(s.visibility) && offset < |Log(s.logs, key)|
    ensures Places(s, key, offset) ==
      Count(offset in Released(At(s.visibility, key))) + Count(Pending(s, key, offset)) + Count(Waiting(s, key, offset))
  {
    HiddenNormal();
  }

  /** Settling releases exactly the pending records that are due. */
  lemma SettledRecord(s: State, now: u64, s': State, key: Key, offset: nat)
    requires Invariant(s) && s'.logs == s.logs && Settled(s.tasks, s.visibility, now, s'.tasks, s'.visibility)
    requires offset < |Log(s.logs, key)|
    ensures var due := Log(s.logs, key)[offset] <= now;
      && (offset in Released(At(s'.visibility, key)) <==>
            offset in Released(At(s.visibility, key)) || (Pending(s, key, offset) && due))
      && (Pending(s', key, offset) <==> Pending(s, key, offset) && !due)
  {
    hide Showing, Places, Released;
    var t := TaskFor(s.logs, key, offset);
    assert Released(At(s'.visibility, key)) == Released(At(s.visibility, key)) + DueOffsets(s.tasks, key, now);
    if offset in DueOffsets(s.tasks, key, now) {
      var u :| u in s.tasks && u.key == key && u.time <= now && u.offset == offset;
      assert IsTask(s.logs, u) && u == t;
    }
    assert s'.tasks[t] == if t.time > now then s.tasks[t] else 0;
  }

  lemma SettleKeeps(s: State, now: u64, s': State)
    requires Invariant(s) && s'.logs == s.logs && s'.unpublished == s.unpublished
    requires Settled(s.tasks, s.visibility, now, s'.tasks, s'.visibility)
    ensures Invariant(s')
  {
    hide Showing, Places, Released;
    forall k | k in s'.visibility ensures Normal(s'.visibility[k]) {
      assert At(s'.visibility, k) == s'.visibility[k];
    }
    forall t | t in s'.tasks ensures s'.tasks[t] == 1 && IsTask(s'.logs, t) {
      assert t in s.tasks;
    }
    forall k, o | o in Released(At(s'.visibility, k)) ensures o < |Log(s'.logs, k)| {
      assert Released(At(s'.visibility, k)) == Released(At(s.visibility, k)) + DueOffsets(s.tasks, k, now);
      if o in DueOffsets(s.tasks, k, now) {
        var u :| u in s.tasks && u.key == k && u.time <= now && u.offset == o;
        assert IsTask(s.logs, u);
      }
    }
    forall k, o: nat | o < |Log(s'.logs, k)| ensures Places(s', k, o) == 1 {
      assert Places(s, k, o) == 1;
      PlacesByRelease(s, k, o);
      PlacesByRelease(s', k, o);
      SettledRecord(s, now, s', k, o);
    }
  }

  lemma AppendKeeps(s: State, key: Key, time: u64, s': State)
    requires Invariant(s) && Step(s, NackAppend(key, time), s')
    ensures Invariant(s')
  {
    var n := |Log(s.logs, key)|;
    forall t | t in s'.tasks ensures s'.tasks[t] == 1 && IsTask(s'.logs, t) {
      assert t in s.tasks;
    }
    forall k, o | o in Released(At(s'.visibility, k)) ensures o < |Log(s'.logs, k)| {
      assert o in Released(At(s.visibility, k));
    }
    forall k, o: nat | o < |Log(s'.logs, k)| ensures Places(s', k, o) == 1 {
      PlacesByRelease(s', k, o);
      if k == key && o == n {
        assert TaskFor(s'.logs, k, o) !in s.tasks;
      } else {
        assert Places(s, k, o) == 1;
        PlacesByRelease(s, k, o);
        assert TaskFor(s'.logs, k, o) == TaskFor(s.logs, k, o);
      }
    }
  }

  /** Moving the appended record into the queue, before the queue is looked at. */
  function Published(s: State): State
    requires s.unpublished.Some? && s.unpublished.value.offset < |Log(s.logs, s.unpublished.value.key)|
  {
    var u := s.unpublished.value;
    s.(unpublished := None, tasks := s.tasks + multiset{TaskFor(s.logs, u.key, u.offset)})
  }

  lemma PublishedKeeps(s: State)
    requires Invariant(s) && s.unpublished.Some?
    ensures Invariant(Published(s))
  {
    hide Released;
    var u, s' := s.unpublished.value, Published(s);
    var task := TaskFor(s.logs, u.key, u.offset);
    assert Places(s, u.key, u.offset) == 1 && Waiting(s, u.key, u.offset);
    assert task !in s.tasks;
    forall t | t in s'.tasks ensures s'.tasks[t] == 1 && IsTask(s'.logs, t) {
      assert t == task || t in s.tasks;
    }
    forall k, o: nat | o < |Log(s'.logs, k)| ensures Places(s', k, o) == 1 {
      assert Places(s, k, o) == 1;
    }
  }

  /** A queue with one task for every surviving record. */
  lemma RebuiltKeeps(logs: map<Key, seq<u64>>, tasks: multiset<RetryTask>)
    requires OneTaskEach(logs, tasks)
    ensures Invariant(State(logs, None, tasks, map[]))
  {
    var s := State(logs, None, tasks, map[]);
    forall k, o: nat | o < |Log(logs, k)| ensures Places(s, k, o) == 1 {
      assert IsTask(logs, TaskFor(logs, k, o));
    }
  }

  /** Every step keeps the invariant: each retry record is in exactly one of the visible prefix, the
      ready set, the queue, and the one append that is not yet published. */
  lemma StepKeepsInvariant(s: State, e: Event, s': State)
    requires Invariant(s) && Step(s, e, s')
    ensures Invariant(s')
  {
    hide Invariant, Settled;
    match e
    case NackAppend(key, time) => AppendKeeps(s, key, time, s');
    case NackPublish(now) =>
      PublishedKeeps(s);
      SettleKeeps(Published(s), now, s');
    case Tick(now) => SettleKeeps(s, now, s');
    case Fetch(_) =>
    case Restart(now) =>
      var all :| OneTaskEach(s'.logs, all) && Settled(all, map[], now, s'.tasks, s'.visibility);
      RebuiltKeeps(s'.logs, all);
      SettleKeeps(State(s'.logs, None, all, map[]), now, s');
  }

  // ---- What consumers see ----

  /** The visible end is the length of the longest prefix of released records: everything before it
      is released, and the record at it, if any, is still in the queue or not yet published. */
  lemma EndIsLongestReleasedPrefix(s: State, key: Key)
    requires Invariant(s)
    ensures End(s, key) <= |Log(s.logs, key)|
    ensures forall o: nat :: o < End(s, key) ==> o in Released(At(s.visibility, key))
    ensures End(s, key) < |Log(s.logs, key)| ==>
      Pending(s, key, End(s, key)) || Waiting(s, key, End(s, key))
  {
    HiddenNormal();
    var end := End(s, key);
    if end > 0 { assert end - 1 in Released(At(s.visibility, key)); }
    if end < |Log(s.logs, key)| { assert Places(s, key, end) == 1; }
  }

  lemma SettledGrows(tasks: multiset<RetryTask>, visibility: map<Key, Visibility>, now: u64,
                     tasks': multiset<RetryTask>, visibility': map<Key, Visibility>, key: Key)
    requires AllNormal(visibility) && Settled(tasks, visibility, now, tasks', visibility')
    ensures At(visibility, key).end <= At(visibility', key).end
    ensures Released(At(visibility, key)) <= Released(At(visibility', key))
  {
    hide Showing;
    var v, w := At(visibility, key), At(visibility', key);
    assert Released(w) == Released(v) + DueOffsets(tasks, key, now);
    assert w.end !in Released(w);
    assert w.end < v.end ==> w.end in Released(v);
  }

  /** Short of a restart, nothing once visible is ever hidden again. */
  lemma VisibleEndNeverDecreases(s: State, e: Event, s': State, key: Key)
    requires Invariant(s) && Step(s, e, s') && !e.Restart?
    ensures End(s, key) <= End(s', key)
    ensures Released(At(s.visibility, key)) <= Released(At(s'.visibility, key))
  {
    hide Settled;
    match e
    case NackAppend(_, _) =>
    case NackPublish(now) =>
      SettledGrows(Published(s).tasks, s.visibility, now, s'.tasks, s'.visibility, key);
    case Tick(now) =>
      SettledGrows(s.tasks, s.visibility, now, s'.tasks, s'.visibility, key);
    case Fetch(_) =>
  }

  /** Once everything is published and due, one tick shows the whole log. */
  lemma EverythingBecomesVisible(s: State, now: u64, s': State, key: Key)
    requires Invariant(s) && s.unpublished.None? && Step(s, Tick(now), s')
    requires forall o: nat :: o < |Log(s.logs, key)| ==> Log(s.logs, key)[o] <= now
    ensures End(s', key) == |Log(s'.logs, key)|
  {
    hide Settled;
    StepKeepsInvariant(s, Tick(now), s');
    EndIsLongestReleasedPrefix(s', key);
    var end := End(s', key);
    if end < |Log(s.logs, key)| {
      SettledRecord(s, now, s', key, end);
    }
  }

  // ---- Whole runs ----

  ghost predicate IsRun(states: seq<State>, events: seq<Event>) {
    && |states| == |events| + 1
    && states[0] == INITIAL
    && forall i :: 0 <= i < |events| ==> StepAt(states, events, i)
  }

  ghost predicate StepAt(states: seq<State>, events: seq<Event>, i: nat)
    requires i < |events| && |states| == |events| + 1
  {
    Step(states[i], events[i], states[i + 1])
  }

  lemma InitialInvariant()
    ensures Invariant(INITIAL)
  {
  }

  /** In every run, under any clock, every retry record is in exactly one place. */
  lemma {:induction false} RunKeepsInvariant(states: seq<State>, events: seq<Event>, n: nat)
    requires IsRun(states, events) && n < |states|
    ensures Invariant(states[n])
  {
    hide Step, Invariant;
    if n == 0 {
      InitialInvariant();
    } else {
      RunKeepsInvariant(states, events, n - 1);
      assert StepAt(states, events, n - 1);
      StepKeepsInvariant(states[n - 1], events[n - 1], states[n]);
    }
  }

  /** In every run, between restarts, the visible end of every partition only grows. */
  lemma {:induction false} RunVisibleEndMonotone(states: seq<State>, events: seq<Event>, i: nat, j: nat, key: Key)
    requires IsRun(states, events) && i <= j < |states|
    requires forall k :: i <= k < j ==> !events[k].Restart?
    ensures End(states[i], key) <= End(states[j], key)
    decreases j - i
  {
    hide Step, Invariant;
    if i < j {
      RunKeepsInvariant(states, events, i);
      assert StepAt(states, events, i);
      VisibleEndNeverDecreases(states[i], events[i], states[i + 1], key);
      RunVisibleEndMonotone(states, events, i + 1, j, key);
    }
  }
}
