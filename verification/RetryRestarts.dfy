/** What a restart of the broker does to the visibility of retry records. */
module RetryRestarts {
  import opened Basics
  import opened RetrySchedulers
  import opened RetryRuns

  // ---- Restart ----

  /** Releases match one reading of the clock: exactly the published deadlines up to it. */
  ghost predicate InStep(s: State, clock: u64) {
    && (forall t :: t in s.tasks ==> t.time > clock)
    && forall k, o :: o in Released(At(s.visibility, k)) ==> o < |Log(s.logs, k)| && Log(s.logs, k)[o] <= clock
  }

  /** The clock an event reads, if it reads one. */
  function Reading(e: Event): Option<u64> {
    match e
    case NackPublish(now) => Some(now)
    case Tick(now) => Some(now)
    case Restart(now) => Some(now)
    case _ => None
  }

  lemma SettleInStep(s: State, clock: u64, now: u64, s': State)
    requires Invariant(s) && s'.logs == s.logs && Settled(s.tasks, s.visibility, now, s'.tasks, s'.visibility)
    requires clock <= now
    requires forall k, o :: o in Released(At(s.visibility, k)) ==> o < |Log(s.logs, k)| && Log(s.logs, k)[o] <= clock
    ensures InStep(s', now)
  {
    hide Showing, Released, Places;
    forall t | t in s'.tasks ensures t.time > now {
    }
    forall k, o | o in Released(At(s'.visibility, k)) ensures o < |Log(s'.logs, k)| && Log(s'.logs, k)[o] <= now {
      assert Released(At(s'.visibility, k)) == Released(At(s.visibility, k)) + DueOffsets(s.tasks, k, now);
      if o in DueOffsets(s.tasks, k, now) {
        var u :| u in s.tasks && u.key == k && u.time <= now && u.offset == o;
        assert IsTask(s.logs, u);
      }
    }
  }

  lemma StepInStep(s: State, e: Event, s': State, clock: u64)
    requires Invariant(s) && InStep(s, clock) && Step(s, e, s')
    requires Reading(e).Some? ==> clock <= Reading(e).value
    ensures InStep(s', if Reading(e).Some? then Reading(e).value else clock)
  {
    hide Settled, Invariant;
    match e
    case NackAppend(key, time) => AppendInStep(s, key, time, s', clock);
    case NackPublish(now) =>
      PublishedKeeps(s);
      SettleInStep(Published(s), clock, now, s');
    case Tick(now) => SettleInStep(s, clock, now, s');
    case Fetch(_) =>
    case Restart(now) => RebuiltInStep(s', now);
  }

  lemma RebuiltInStep(s: State, now: u64)
    requires Rebuilt(s.logs, now, s.tasks, s.visibility)
    ensures InStep(s, now)
  {
    hide Settled, Invariant, InStep, OneTaskEach;
    var all :| OneTaskEach(s.logs, all) && Settled(all, map[], now, s.tasks, s.visibility);
    RebuiltKeeps(s.logs, all);
    SettleInStep(State(s.logs, None, all, map[]), 0, now, s);
  }

  lemma AppendInStep(s: State, key: Key, time: u64, s': State, clock: u64)
    requires InStep(s, clock) && Step(s, NackAppend(key, time), s')
    ensures InStep(s', clock)
  {
    forall k, o | o in Released(At(s'.visibility, k)) ensures o < |Log(s'.logs, k)| && Log(s'.logs, k)[o] <= clock {
      assert o in Released(At(s.visibility, k));
    }
  }

  /** The clock never runs backwards along the run. */
  ghost predicate Steady(events: seq<Event>, clocks: seq<u64>) {
    && |clocks| == |events| + 1 && clocks[0] == 0
    && forall i :: 0 <= i < |events| ==> SteadyAt(events, clocks, i)
  }

  ghost predicate SteadyAt(events: seq<Event>, clocks: seq<u64>, i: nat)
    requires i < |events| && |clocks| == |events| + 1
  {
    && clocks[i] <= clocks[i + 1]
    && clocks[i + 1] == if Reading(events[i]).Some? then Reading(events[i]).value else clocks[i]
  }

  lemma {:induction false} SteadyRunInStep(states: seq<State>, events: seq<Event>, clocks: seq<u64>, n: nat)
    requires IsRun(states, events) && Steady(events, clocks) && n < |states|
    ensures InStep(states[n], clocks[n])
  {
    hide Step, Invariant, InStep;
    if n == 0 {
      InitialInStep();
    } else {
      SteadyRunInStep(states, events, clocks, n - 1);
      RunKeepsInvariant(states, events, n - 1);
      assert StepAt(states, events, n - 1) && SteadyAt(events, clocks, n - 1);
      StepInStep(states[n - 1], events[n - 1], states[n], clocks[n - 1]);
    }
  }

  lemma InitialInStep()
    ensures InStep(INITIAL, 0)
  {
  }

  /** The scheduler brought up to date at one reading of the clock, without a restart: a pending
      append is published, otherwise it ticks. */
  function Onward(s: State, now: u64): Event {
    if s.unpublished.Some? then NackPublish(now) else Tick(now)
  }

  /** A scheduler in step with the clock shows the longest prefix of deadlines that have passed. */
  lemma InStepShowsDuePrefix(s: State, clock: u64, key: Key)
    requires Invariant(s) && InStep(s, clock) && s.unpublished.None?
    ensures End(s, key) <= |Log(s.logs, key)|
    ensures forall o: nat :: o < End(s, key) ==> Log(s.logs, key)[o] <= clock
    ensures End(s, key) < |Log(s.logs, key)| ==> Log(s.logs, key)[End(s, key)] > clock
  {
    EndIsLongestReleasedPrefix(s, key);
  }

  lemma SamePrefix(log: seq<u64>, log': seq<u64>, clock: u64, end: nat, end': nat)
    requires log' <= log && end <= |log| && end' <= |log'|
    requires forall o: nat :: o < end' ==> log'[o] <= clock
    requires end' < |log'| ==> log'[end'] > clock
    requires forall o: nat :: o < end ==> log[o] <= clock
    requires end < |log| ==> log[end] > clock
    ensures end' == Min(end, |log'|)
  {
  }

  lemma RestartInStep(s: State, now: u64, s': State)
    requires Invariant(s) && Step(s, Restart(now), s')
    ensures Invariant(s') && InStep(s', now) && s'.unpublished.None?
  {
    hide Invariant, InStep, Rebuilt;
    StepKeepsInvariant(s, Restart(now), s');
    RebuiltInStep(s', now);
  }

  /** Carrying on leaves the logs alone, of which a restart keeps a prefix. */
  lemma LogsOnward(s: State, now: u64, carriedOn: State, restarted: State, key: Key)
    requires Step(s, Onward(s, now), carriedOn) && Step(s, Restart(now), restarted)
    ensures carriedOn.unpublished.None? && Log(restarted.logs, key) <= Log(carriedOn.logs, key)
  {
    hide Settled, Rebuilt;
  }

  /** With a clock that has not run backwards, restarting makes no difference: the rebuilt scheduler
      shows what an uninterrupted one would show of the surviving log at the same reading. */
  lemma RestartEquivalent(s: State, clock: u64, now: u64, carriedOn: State, restarted: State, key: Key)
    requires Invariant(s) && InStep(s, clock) && clock <= now
    requires Step(s, Onward(s, now), carriedOn) && Step(s, Restart(now), restarted)
    ensures End(restarted, key) == Min(End(carriedOn, key), |Log(restarted.logs, key)|)
  {
    hide Invariant, InStep, Step;
    StepKeepsInvariant(s, Onward(s, now), carriedOn);
    StepInStep(s, Onward(s, now), carriedOn, clock);
    RestartInStep(s, now, restarted);
    LogsOnward(s, now, carriedOn, restarted, key);
    InStepShowsDuePrefix(carriedOn, now, key);
    InStepShowsDuePrefix(restarted, now, key);
    SamePrefix(Log(carriedOn.logs, key), Log(restarted.logs, key), now, End(carriedOn, key), End(restarted, key));
  }

  /** Under any clock, a restart shows the same surviving prefix exactly when every deadline in it has
      passed at the reading the restart takes; a clock set back in between is the only way to lose. */
  lemma RestartShowsSameIffDue(s: State, now: u64, carriedOn: State, restarted: State, key: Key)
    requires Invariant(s)
    requires Step(s, Onward(s, now), carriedOn) && Step(s, Restart(now), restarted)
    ensures End(restarted, key) <= End(carriedOn, key)
    ensures var kept := Min(End(carriedOn, key), |Log(restarted.logs, key)|);
      End(restarted, key) == kept <==> forall o: nat :: o < kept ==> Log(restarted.logs, key)[o] <= now
  {
    hide Invariant, InStep, Step, Released;
    StepKeepsInvariant(s, Onward(s, now), carriedOn);
    RestartInStep(s, now, restarted);
    LogsOnward(s, now, carriedOn, restarted, key);
    InStepShowsDuePrefix(restarted, now, key);
    EndIsLongestReleasedPrefix(carriedOn, key);
    var end := End(carriedOn, key);
    if end < |Log(carriedOn.logs, key)| {
      StillWaitingIsLate(s, now, carriedOn, key, end);
    }
  }

  /** A record still queued after settling has a deadline in the future. */
  lemma StillWaitingIsLate(s: State, now: u64, s': State, key: Key, offset: nat)
    requires Invariant(s) && Step(s, Onward(s, now), s')
    requires offset < |Log(s'.logs, key)| && (Pending(s', key, offset) || Waiting(s', key, offset))
    ensures Log(s'.logs, key)[offset] > now
  {
    var t := TaskFor(s'.logs, key, offset);
    assert s'.tasks[t] > 0;
  }

  lemma ReleasedAtOnce(key: Key)
    ensures Settled(multiset{RetryTask(key, 0, 10)}, map[], 10, multiset{}, map[key := Visibility(1, {})])
  {
    hide Settled;
    var task := RetryTask(key, 0, 10);
    assert multiset{task} - multiset{task} == multiset{};
    AbsorbFirst();
    NothingDue(multiset{}, map[key := Visibility(1, {})], 10);
    PopThenSettle(multiset{task}, map[], 10, task, multiset{}, map[key := Visibility(1, {})]);
  }

  lemma AbsorbFirst()
    ensures Absorb(Visibility(0, {}), 0) == Visibility(1, {})
  {
    assert {} + {0} == {0} && {0} - {0} == {};
    assert Advance(Visibility(1, {})) == Visibility(1, {});
  }

  /** A clock set back makes the difference: nacked and released at 10, hidden again by a restart at 5,
      although a broker that had carried on would still show it at 5. */
  lemma ClockSetBackHidesRecord(key: Key) returns (states: seq<State>, events: seq<Event>, restarted: State)
    ensures events == [NackAppend(key, 10), NackPublish(10)] && IsRun(states, events)
    ensures Step(states[2], Onward(states[2], 5), states[2]) && Step(states[2], Restart(5), restarted)
    ensures End(states[2], key) == 1 && End(restarted, key) == 0 && Log(restarted.logs, key) == [10]
  {
    hide Settled, Invariant;
    var logs, queue, shown := map[key := [10]], multiset{RetryTask(key, 0, 10)}, map[key := Visibility(1, {})];
    var appended := State(logs, Some(Unpublished(key, 0)), multiset{}, map[]);
    var carriedOn := State(logs, None, multiset{}, shown);
    states, events := [INITIAL, appended, carriedOn], [NackAppend(key, 10), NackPublish(10)];
    restarted := State(logs, None, queue, map[]);
    ReleasedAtOnce(key);
    NothingDue(multiset{}, shown, 5);
    NothingDue(queue, map[], 5);
    assert OneTaskEach(logs, queue);
    assert multiset{} + queue == queue && [] + [10] == [10];
    forall i | 0 <= i < |events| ensures StepAt(states, events, i) {
      assert i == 0 || i == 1;
    }
  }
}
