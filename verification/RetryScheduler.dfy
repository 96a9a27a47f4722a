/** The retry scheduler: deadlines in a priority queue, released offsets in a contiguous visible
    prefix and a set of offsets that are ready but not yet contiguous. */
module RetrySchedulers {
  import opened Basics

  datatype Key = Key(topic: bytes, partition: i32)

  datatype RetryTask = RetryTask(key: Key, offset: nat, time: u64)

  datatype Visibility = Visibility(end: nat, ready: set<nat>)

  const HIDDEN: Visibility := Visibility(0, {})

  /** The visibility of a partition; one never touched shows nothing. */
  function At(visibility: map<Key, Visibility>, key: Key): Visibility {
    if key in visibility then visibility[key] else HIDDEN
  }

  // ---- Released offsets and their longest prefix ----

  function UpTo(n: nat): (s: set<nat>)
    ensures forall x: nat :: x in s <==> x < n
  {
    if n == 0 then {} else UpTo(n - 1) + {n - 1}
  }

  /** Everything released so far: the visible prefix and the ready offsets beyond it. */
  function Released(v: Visibility): set<nat> {
    UpTo(v.end) + v.ready
  }

  /** The visible prefix is as long as it can be. */
  ghost predicate Normal(v: Visibility) {
    v.end !in v.ready && forall x :: x in v.ready ==> x > v.end
  }

  /** The least number from n on that is not in the set. */
  function LeastMissing(s: set<nat>, n: nat): (m: nat)
    ensures m >= n && m !in s
    ensures forall x: nat :: n <= x < m ==> x in s
    decreases |s|
  {
    if n in s then
      var m := LeastMissing(s - {n}, n + 1);
      assert forall x: nat :: n <= x < m ==> x in s by {
        forall x: nat | n <= x < m ensures x in s {
          if x != n { assert x in s - {n}; }
        }
      }
      m
    else n
  }

  /** The visibility that a set of released offsets calls for. */
  function Showing(s: set<nat>): (v: Visibility)
    ensures Normal(v) && Released(v) == s
    ensures forall x: nat :: x < v.end ==> x in s
    ensures v.end !in s
  {
    var end := LeastMissing(s, 0);
    assert forall x: nat :: x < end ==> x in s;
    Visibility(end, set x | x in s && x > end)
  }

  lemma ShowingUnique(v: Visibility)
    requires Normal(v)
    ensures v == Showing(Released(v))
  {
    var w := Showing(Released(v));
    assert v.end !in Released(v) && w.end !in Released(v);
    assert v.end == w.end;
    forall x ensures x in v.ready <==> x in w.ready {
      if x > v.end { assert x in Released(v) <==> x in v.ready; }
    }
  }

  /** The inner loop of MakeDueVisibleLocked: while the next offset is ready, show it. */
  function Advance(v: Visibility): Visibility
    decreases |v.ready|
  {
    if v.end in v.ready then Advance(Visibility(v.end + 1, v.ready - {v.end})) else v
  }

  lemma ShiftReleased(v: Visibility)
    requires v.end in v.ready
    ensures Released(Visibility(v.end + 1, v.ready - {v.end})) == Released(v)
  {
  }

  lemma {:induction false} AdvanceShows(v: Visibility)
    requires forall x :: x in v.ready ==> x >= v.end
    ensures Advance(v) == Showing(Released(v))
    decreases |v.ready|
  {
    hide Showing, Released;
    if v.end in v.ready {
      var w := Visibility(v.end + 1, v.ready - {v.end});
      AdvanceShows(w);
      ShiftReleased(v);
    } else {
      ShowingUnique(v);
    }
  }

  /** Releasing one offset. */
  function Absorb(v: Visibility, offset: nat): Visibility {
    Advance(if offset >= v.end then v.(ready := v.ready + {offset}) else v)
  }

  lemma AbsorbShows(v: Visibility, offset: nat)
    requires Normal(v)
    ensures Absorb(v, offset) == Showing(Released(v) + {offset})
  {
    hide Advance, Showing;
    var w := if offset >= v.end then v.(ready := v.ready + {offset}) else v;
    AdvanceShows(w);
    assert Released(w) == Released(v) + {offset};
  }

  // ---- Settling: every due task released, in whatever order ----

  function DueOffsets(tasks: multiset<RetryTask>, key: Key, now: u64): set<nat> {
    set t | t in tasks && t.key == key && t.time <= now :: t.offset
  }

  function DueKeys(tasks: multiset<RetryTask>, now: u64): set<Key> {
    set t | t in tasks && t.time <= now :: t.key
  }

  /** The state after every task due at `now` has been released. */
  ghost predicate Settled(tasks: multiset<RetryTask>, visibility: map<Key, Visibility>, now: u64,
                          tasks': multiset<RetryTask>, visibility': map<Key, Visibility>) {
    && (forall t :: tasks'[t] == if t.time > now then tasks[t] else 0)
    && visibility'.Keys == visibility.Keys + DueKeys(tasks, now)
    && forall k :: At(visibility', k) == Showing(Released(At(visibility, k)) + DueOffsets(tasks, k, now))
  }

  ghost predicate AllNormal(visibility: map<Key, Visibility>) {
    forall k :: k in visibility ==> Normal(visibility[k])
  }

  /** The order in which equal deadlines are popped cannot be seen. */
  lemma SettledUnique(tasks: multiset<RetryTask>, visibility: map<Key, Visibility>, now: u64,
                      t1: multiset<RetryTask>, v1: map<Key, Visibility>,
                      t2: multiset<RetryTask>, v2: map<Key, Visibility>)
    requires Settled(tasks, visibility, now, t1, v1) && Settled(tasks, visibility, now, t2, v2)
    ensures t1 == t2 && v1 == v2
  {
    hide Showing, DueOffsets, DueKeys;
    forall t ensures t1[t] == t2[t] {
    }
    forall k | k in v1.Keys ensures v1[k] == v2[k] {
      assert At(v1, k) == At(v2, k);
    }
  }

  lemma NothingDue(tasks: multiset<RetryTask>, visibility: map<Key, Visibility>, now: u64)
    requires AllNormal(visibility) && forall t :: t in tasks ==> t.time > now
    ensures Settled(tasks, visibility, now, tasks, visibility)
  {
    hide Showing;
    forall k ensures At(visibility, k) == Showing(Released(At(visibility, k)) + DueOffsets(tasks, k, now)) {
      assert DueOffsets(tasks, k, now) == {};
      assert Released(At(visibility, k)) + {} == Released(At(visibility, k));
      ShowingUnique(At(visibility, k));
    }
    assert DueKeys(tasks, now) == {};
  }

  lemma DueKeysWithout(tasks: multiset<RetryTask>, t: RetryTask, now: u64)
    requires t in tasks && t.time <= now
    ensures DueKeys(tasks, now) == DueKeys(tasks - multiset{t}, now) + {t.key}
  {
    var fewer := tasks - multiset{t};
    forall k ensures k in DueKeys(tasks, now) <==> k in DueKeys(fewer, now) + {t.key} {
      if k in DueKeys(tasks, now) {
        var u :| u in tasks && u.time <= now && u.key == k;
        assert u == t || u in fewer;
      }
    }
  }

  /** Popping one due task first changes nothing about where settling ends. */
  lemma PopThenSettle(tasks: multiset<RetryTask>, visibility: map<Key, Visibility>, now: u64, t: RetryTask,
                      tasks': multiset<RetryTask>, visibility': map<Key, Visibility>)
    requires AllNormal(visibility) && t in tasks && t.time <= now
    requires Settled(tasks - multiset{t}, visibility[t.key := Absorb(At(visibility, t.key), t.offset)], now,
                     tasks', visibility')
    ensures Settled(tasks, visibility, now, tasks', visibility')
  {
    hide Showing, Absorb, Released;
    var fewer := tasks - multiset{t};
    var mid := visibility[t.key := Absorb(At(visibility, t.key), t.offset)];
    AbsorbShows(At(visibility, t.key), t.offset);
    DueKeysWithout(tasks, t, now);
    forall k ensures At(visibility', k) == Showing(Released(At(visibility, k)) + DueOffsets(tasks, k, now)) {
      DueWithout(tasks, t, k, now);
      var released := Released(At(visibility, k));
      if k == t.key {
        assert Released(At(mid, k)) == released + {t.offset};
        assert (released + {t.offset}) + DueOffsets(fewer, k, now) == released + DueOffsets(tasks, k, now);
      } else {
        assert At(mid, k) == At(visibility, k);
        assert DueOffsets(fewer, k, now) + {} == DueOffsets(fewer, k, now);
      }
    }
  }

  lemma DueWithout(tasks: multiset<RetryTask>, t: RetryTask, k: Key, now: u64)
    requires t in tasks && t.time <= now
    ensures DueOffsets(tasks, k, now)
         == DueOffsets(tasks - multiset{t}, k, now) + if k == t.key then {t.offset} else {}
  {
    var fewer := tasks - multiset{t};
    forall x ensures x in DueOffsets(tasks, k, now)
                <==> x in DueOffsets(fewer, k, now) + if k == t.key then {t.offset} else {} {
      if x in DueOffsets(tasks, k, now) {
        var u :| u in tasks && u.key == k && u.time <= now && u.offset == x;
        assert u == t || u in fewer;
      }
    }
  }

  lemma {:induction false} EarliestExists(tasks: multiset<RetryTask>) returns (t: RetryTask)
    requires tasks != multiset{}
    ensures t in tasks && forall u :: u in tasks ==> t.time <= u.time
    decreases |tasks|
  {
    t :| t in tasks;
    var others := tasks - multiset{t};
    assert forall u :: u in tasks ==> u == t || u in others;
    if others != multiset{} {
      var s := EarliestExists(others);
      if s.time < t.time { t := s; }
    }
  }

  class RetryScheduler {
    var tasks: multiset<RetryTask>
    var visibility: map<Key, Visibility>
    var running: bool
    var stopped: bool

    ghost predicate Valid()
      reads this
    {
      AllNormal(visibility)
    }

    constructor ()
      ensures Valid() && tasks == multiset{} && visibility == map[] && !running && !stopped
    {
      tasks := multiset{};
      visibility := map[];
      running, stopped := false, false;
    }

    /** MakeDueVisibleLocked at one reading of the clock; the queue may hold equal deadlines in any
        order, so the earliest task is any one of those. */
    method MakeDueVisible(now: u64)
      requires Valid()
      modifies this`tasks, this`visibility
      ensures Valid()
      ensures Settled(old(tasks), old(visibility), now, tasks, visibility)
    {
      hide Settled, Absorb, Normal;
      while tasks != multiset{}
        invariant AllNormal(visibility)
        invariant forall t, v ::
          Settled(tasks, visibility, now, t, v) ==> Settled(old(tasks), old(visibility), now, t, v)
        decreases |tasks|
      {
        ghost var earliest := EarliestExists(tasks);
        var task :| task in tasks && forall u :: u in tasks ==> task.time <= u.time;
        if task.time > now {
          break;
        }
        ghost var tasks0, visibility0 := tasks, visibility;
        tasks := tasks - multiset{task};
        var state := At(visibility, task.key);
        assert Normal(HIDDEN) by {
          HiddenNormal();
        }
        AbsorbShows(state, task.offset);
        if task.offset >= state.end {
          state := state.(ready := state.ready + {task.offset});
        }
        ghost var absorbed := Absorb(At(visibility, task.key), task.offset);
        UnfoldAbsorb(At(visibility, task.key), task.offset);
        while state.end in state.ready
          invariant Advance(state) == absorbed
          decreases |state.ready|
        {
          state := Visibility(state.end + 1, state.ready - {state.end});
        }
        visibility := visibility[task.key := state];
        forall t, v | Settled(tasks, visibility, now, t, v) ensures Settled(old(tasks), old(visibility), now, t, v) {
          PopThenSettle(tasks0, visibility0, now, task, t, v);
        }
      }
      NothingDue(tasks, visibility, now);
    }

    /** Schedule: publish the deadline of an appended record. */
    method Schedule(key: Key, offset: nat, time: u64, now: u64)
      requires Valid()
      modifies this`tasks, this`visibility
      ensures Valid()
      ensures Settled(old(tasks) + multiset{RetryTask(key, offset, time)}, old(visibility), now, tasks, visibility)
    {
      tasks := tasks + multiset{RetryTask(key, offset, time)};
      MakeDueVisible(now);
    }

    /** The scheduler thread ends, and Start will not begin another. */
    method Close()
      modifies this`running, this`stopped
      ensures !running && stopped
    {
      running, stopped := false, true;
    }

    method VisibleEnd(key: Key) returns (end: nat)
      ensures end == At(visibility, key).end
    {
      if key in visibility {
        end := visibility[key].end;
      } else {
        end := 0;
      }
    }
  }

  lemma HiddenNormal()
    ensures Normal(HIDDEN)
  {
  }

  lemma UnfoldAbsorb(v: Visibility, offset: nat)
    ensures Absorb(v, offset) == Advance(if offset >= v.end then v.(ready := v.ready + {offset}) else v)
  {
  }
}
