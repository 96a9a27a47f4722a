/** Generation fencing over whole runs of the group coordinator. */
module GroupRuns {
  import opened Basics
  import opened Decimal
  import opened Topics
  import opened SortedKeys
  import opened PartitionRanges
  import opened GroupCoordinators

  datatype Event =
    | JoinGroup(request: JoinRequest, partitionCount: u32, now: int)
    | SyncGroup(groupId: bytes, memberId: bytes, generation: i32, now: int)
    | Heartbeat(groupId: bytes, memberId: bytes, generation: i32, now: int)
    | LeaveGroup(groupId: bytes, memberId: bytes)
    | Scan(now: int, timeout: int)

  ghost function Stepped(groups: GroupMap, e: Event): GroupMap {
    match e
    case JoinGroup(q, count, now) => Join(groups, q, count, now).0
    case SyncGroup(g, m, generation, now) => Sync(groups, g, m, generation, now).0
    case Heartbeat(g, m, generation, now) => Beat(groups, g, m, generation, now).0
    case LeaveGroup(g, m) => Leave(groups, g, m).0
    case Scan(now, timeout) => Expire(groups, now, timeout)
  }

  // ---- What every group below the last generation satisfies ----

  /** The least member leads and everyone has the block of their rank. */
  ghost predicate Balanced(g: Group) {
    g.members != map[] ==>
      && g.leader == Sorted(g.members.Keys)[0]
      && forall id :: id in g.members ==> g.members[id].assignment == AssignmentFor(g, id)
  }

  /** The id was given out before the sequence number n. */
  predicate Issued(id: bytes, first: nat, n: nat) {
    exists k: nat :: first <= k < n && id == MemberId(k)
  }

  ghost predicate Regular(g: Group) {
    && g.partitionCount > 0 && 1 <= g.nextSequence <= g.generation + 1
    && (g.members == map[] <==> g.generation == 0)
    && |g.members| <= g.generation
    && (forall id :: id in g.members ==> Issued(id, 1, g.nextSequence))
    && Balanced(g)
  }

  ghost predicate Sane(g: Group) {
    g.generation >= 0 && (g.generation < MAX_GENERATION ==> Regular(g))
  }

  ghost predicate AllSane(groups: GroupMap) {
    forall id :: id in groups ==> Sane(groups[id])
  }

  lemma AssignedBalanced(g: Group)
    ensures Balanced(Assigned(g))
    ensures Assigned(g).members.Keys == g.members.Keys && |Assigned(g).members| == |g.members|
    ensures Assigned(g).members == map[] <==> g.members == map[]
    ensures Assigned(g).generation == g.generation && Assigned(g).nextSequence == g.nextSequence
    ensures Assigned(g).partitionCount == g.partitionCount
  {
    hide Sorted, Rank, Block;
    var a := Assigned(g);
    assert a.members.Keys == g.members.Keys;
    assert |a.members.Keys| == |g.members.Keys|;
  }

  /** A new generation of a group that was, or had just become, non-empty. */
  lemma NextGenerationSane(g: Group)
    requires 0 <= g.generation < MAX_GENERATION && g.partitionCount > 0 && g.members != map[]
    requires 1 <= g.nextSequence <= g.generation + 2 && |g.members| <= g.generation + 1
    requires forall id :: id in g.members ==> Issued(id, 1, g.nextSequence)
    ensures Sane(NextGeneration(g))
  {
    hide Assigned, Issued, Balanced;
    AssignedBalanced(g.(generation := g.generation + 1));
  }

  lemma HeardSane(g: Group, id: bytes, now: int)
    requires Sane(g) && id in g.members
    ensures Sane(Heard(g, id, now))
  {
    hide Issued, Balanced;
    var h := Heard(g, id, now);
    assert h.members.Keys == g.members.Keys;
    assert |h.members| == |h.members.Keys| == |g.members|;
    if Balanced(g) { HeardBalanced(g, id, now); }
  }

  lemma HeardBalanced(g: Group, id: bytes, now: int)
    requires id in g.members && Balanced(g)
    ensures Balanced(Heard(g, id, now))
  {
    hide Sorted, Rank, Block;
    var h := Heard(g, id, now);
    assert h.members.Keys == g.members.Keys;
    assert |h.members| == |h.members.Keys| == |g.members|;
  }

  lemma FreshGroupSane(topic: bytes, count: u32)
    requires count > 0
    ensures Sane(Group(topic, count, 0, 1, [], map[]))
  {
  }

  lemma IssuedLater(id: bytes, first: nat, n: nat, n': nat)
    requires Issued(id, first, n) && n <= n'
    ensures Issued(id, first, n')
  {
  }

  lemma MemberIdInjective(a: nat, b: nat)
    requires MemberId(a) == MemberId(b)
    ensures a == b
  {
    hide Printed;
    assert MemberId(a)[|MEMBER_PREFIX|..] == Printed(a);
    assert MemberId(b)[|MEMBER_PREFIX|..] == Printed(b);
    PrintedInjective(a, b);
  }

  /** The next id is new to the group. */
  lemma NextIdFresh(g: Group)
    requires forall id :: id in g.members ==> Issued(id, 1, g.nextSequence)
    ensures MemberId(g.nextSequence) !in g.members
  {
    hide MemberId;
    var id := MemberId(g.nextSequence);
    if id in g.members {
      var k: nat :| 1 <= k < g.nextSequence && id == MemberId(k);
      MemberIdInjective(k, g.nextSequence);
    }
  }

  lemma EnrolledReady(g: Group, now: int)
    requires Regular(g) && g.generation < MAX_GENERATION
    ensures var e := Enrolled(g, now);
      && e.generation == g.generation && e.partitionCount == g.partitionCount && e.members != map[]
      && e.nextSequence == g.nextSequence + 1 && |e.members| == |g.members| + 1
      && e.members.Keys == g.members.Keys + {MemberId(g.nextSequence)} && MemberId(g.nextSequence) !in g.members
      && forall id :: id in e.members ==> Issued(id, 1, e.nextSequence)
  {
    hide MemberId, Balanced;
    NextIdFresh(g);
    var e := Enrolled(g, now);
    assert e.members.Keys == g.members.Keys + {MemberId(g.nextSequence)};
    assert |e.members| == |e.members.Keys|;
    forall id | id in e.members ensures Issued(id, 1, e.nextSequence) {
      if id in g.members { IssuedLater(id, 1, g.nextSequence, e.nextSequence); }
    }
  }

  lemma JoinKeepsSane(groups: GroupMap, q: JoinRequest, count: u32, now: int)
    requires AllSane(groups)
    ensures AllSane(Join(groups, q, count, now).0)
  {
    hide Sane, NextGeneration, Enrolled, MemberId, SafeName, ValidTopicName;
    if WellFormedJoin(q, count) && GroupFor(groups, q, count).Ok? {
      var g := GroupFor(groups, q, count).value;
      FreshGroupSane(q.topic, count);
      assert Sane(g);
      if q.memberId == [] {
        JoinNewSane(g, now);
      } else if q.memberId in g.members {
        HeardSane(g, q.memberId, now);
        MembersMeanGeneration(g, q.memberId);
      }
    }
  }

  lemma MembersMeanGeneration(g: Group, id: bytes)
    requires Sane(g) && id in g.members
    ensures g.generation > 0
  {
    hide Balanced;
  }

  lemma JoinNewSane(g: Group, now: int)
    requires Sane(g)
    ensures Enrolled(g, now).generation == g.generation
    ensures g.generation < MAX_GENERATION ==> Sane(NextGeneration(Enrolled(g, now)))
    ensures g.generation == MAX_GENERATION ==> Sane(Enrolled(g, now))
  {
    hide Regular, NextGeneration, MemberId, Issued;
    if g.generation < MAX_GENERATION {
      EnrolledReady(g, now);
      RegularBounds(g);
      NextGenerationSane(Enrolled(g, now));
    }
  }

  lemma RegularBounds(g: Group)
    requires Regular(g)
    ensures 1 <= g.nextSequence <= g.generation + 1 && |g.members| <= g.generation && g.partitionCount > 0
    ensures forall id :: id in g.members ==> Issued(id, 1, g.nextSequence)
    ensures g.members == map[] <==> g.generation == 0
  {
    hide Balanced, Issued;
  }

  lemma FewerSane(g: Group, fewer: map<bytes, Member>)
    requires Sane(g) && fewer.Keys <= g.members.Keys && fewer != map[] && g.generation < MAX_GENERATION
    ensures Sane(NextGeneration(g.(members := fewer)))
  {
    hide NextGeneration, Balanced, Issued;
    FewerCount(fewer, g.members);
    NextGenerationSane(g.(members := fewer));
  }

  lemma FewerCount<T>(a: map<bytes, T>, b: map<bytes, T>)
    requires a.Keys <= b.Keys
    ensures |a| <= |b|
  {
    SubsetSize(a.Keys, b.Keys);
    assert |a| == |a.Keys| && |b| == |b.Keys|;
  }

  lemma {:induction false} SubsetSize(a: set<bytes>, b: set<bytes>)
    requires a <= b
    ensures |a| <= |b|
    decreases |a|
  {
    if a != {} {
      var x :| x in a;
      SubsetSize(a - {x}, b - {x});
    }
  }

  /** Every request and every scan keeps every group sane. */
  lemma StepKeepsSane(groups: GroupMap, e: Event)
    requires AllSane(groups)
    ensures AllSane(Stepped(groups, e))
  {
    hide Sane, Join, NextGeneration, Fenced, SafeName, Heard, Scanned;
    match e
    case JoinGroup(q, count, now) => JoinKeepsSane(groups, q, count, now);
    case SyncGroup(g, m, generation, now) => FencedSane(groups, g, m, generation, now);
    case Heartbeat(g, m, generation, now) => FencedSane(groups, g, m, generation, now);
    case LeaveGroup(g, m) =>
      if g in groups && m in groups[g].members && groups[g].generation < MAX_GENERATION
         && groups[g].members - {m} != map[] {
        FewerSane(groups[g], groups[g].members - {m});
      }
      if g in groups { LastGenerationSane(groups[g], groups[g].members - {m}); }
    case Scan(now, timeout) =>
      forall id | id in Expire(groups, now, timeout) ensures Sane(Expire(groups, now, timeout)[id]) {
        ScannedSane(groups[id], now, timeout);
      }
  }

  lemma LastGenerationSane(g: Group, members: map<bytes, Member>)
    requires g.generation == MAX_GENERATION || Sane(g)
    ensures g.generation == MAX_GENERATION ==> Sane(g.(members := members))
  {
    hide Regular;
  }

  lemma FencedSane(groups: GroupMap, groupId: bytes, memberId: bytes, generation: i32, now: int)
    requires AllSane(groups)
    ensures Fenced(groups, groupId, memberId, generation).Ok? ==>
      groupId in groups && memberId in groups[groupId].members
        && Fenced(groups, groupId, memberId, generation).value == groups[groupId]
      && Sane(Heard(groups[groupId], memberId, now))
  {
    hide Sane, SafeName;
    if Fenced(groups, groupId, memberId, generation).Ok? {
      HeardSane(groups[groupId], memberId, now);
    }
  }

  lemma ScannedSane(g: Group, now: int, timeout: int)
    requires Sane(g)
    ensures Scanned(g, now, timeout).Some? ==> Sane(Scanned(g, now, timeout).value)
  {
    hide Regular, NextGeneration;
    var alive := Alive(g.members, now, timeout);
    if alive != g.members && alive != map[] && g.generation < MAX_GENERATION {
      FewerSane(g, alive);
    }
  }

  // ---- Fencing ----

  /** Same members, same leader, same assignments; only the times of the last signs of life differ. */
  ghost predicate SameMembership(g: Group, g': Group) {
    && g'.members.Keys == g.members.Keys && g'.leader == g.leader
    && forall id :: id in g.members ==> g'.members[id].assignment == g.members[id].assignment
  }

  /** What is true of two moments in the life of a group: its generation and its sequence never go
      back, one generation is one membership with one assignment, and whoever joined in between has an
      id that had not been given out before. */
  ghost predicate Later(g: Group, g': Group) {
    && g'.topic == g.topic && g'.partitionCount == g.partitionCount
    && g.generation <= g'.generation && g.nextSequence <= g'.nextSequence
    && (g.generation == g'.generation ==> SameMembership(g, g'))
    && forall id :: id in g'.members ==> id in g.members || Issued(id, g.nextSequence, g'.nextSequence)
  }

  lemma LaterSame(g: Group)
    ensures Later(g, g)
  {
  }

  lemma LaterTransitive(a: Group, b: Group, c: Group)
    requires Later(a, b) && Later(b, c)
    ensures Later(a, c)
  {
    forall id | id in c.members ensures id in a.members || Issued(id, a.nextSequence, c.nextSequence) {
      if id in b.members {
        if id !in a.members { assert Issued(id, a.nextSequence, b.nextSequence); }
      } else {
        assert Issued(id, b.nextSequence, c.nextSequence);
      }
    }
  }

  lemma HeardLater(g: Group, id: bytes, now: int)
    requires id in g.members
    ensures Later(g, Heard(g, id, now)) && Heard(g, id, now).members.Keys == g.members.Keys
    ensures Heard(g, id, now).generation == g.generation
  {
  }

  lemma AssignedKeeps(g: Group)
    ensures var a := Assigned(g);
      a.topic == g.topic && a.partitionCount == g.partitionCount && a.generation == g.generation
      && a.nextSequence == g.nextSequence && a.members.Keys == g.members.Keys
  {
    hide Sorted, Rank, Block;
  }

  lemma NewIdLater(g: Group, now: int)
    requires Regular(g) && g.generation < MAX_GENERATION
    ensures Later(g, NextGeneration(Enrolled(g, now)))
    ensures NextGeneration(Enrolled(g, now)).members.Keys == g.members.Keys + {MemberId(g.nextSequence)}
    ensures MemberId(g.nextSequence) !in g.members && NextGeneration(Enrolled(g, now)).generation == g.generation + 1
  {
    hide Assigned, Balanced, MemberId;
    var e := Enrolled(g, now);
    EnrolledReady(g, now);
    AssignedKeeps(e.(generation := e.generation + 1));
    assert Issued(MemberId(g.nextSequence), g.nextSequence, e.nextSequence);
  }

  lemma FewerLater(g: Group, fewer: map<bytes, Member>)
    requires fewer.Keys < g.members.Keys && 0 <= g.generation < MAX_GENERATION
    ensures Later(g, NextGeneration(g.(members := fewer)))
    ensures NextGeneration(g.(members := fewer)).members.Keys == fewer.Keys
    ensures NextGeneration(g.(members := fewer)).generation == g.generation + 1
  {
    hide Assigned, Issued;
    AssignedKeeps(g.(members := fewer, generation := g.generation + 1));
  }

  /** One step of a group that survives it: the later state is fenced off from the earlier one, and
      the generation moves by exactly one if the membership changed, and not at all otherwise. */
  lemma StepFenced(groups: GroupMap, e: Event, id: bytes)
    requires AllSane(groups) && id in groups && groups[id].generation < MAX_GENERATION && id in Stepped(groups, e)
    ensures Later(groups[id], Stepped(groups, e)[id])
    ensures var (g, g') := (groups[id], Stepped(groups, e)[id]);
      g'.generation == if g'.members.Keys == g.members.Keys then g.generation else g.generation + 1
  {
    hide Regular, Later, Join, Fenced, Heard, NextGeneration, Scanned, SafeName;
    var g := groups[id];
    LaterSame(g);
    match e
    case JoinGroup(q, count, now) => JoinFenced(groups, q, count, now, id);
    case SyncGroup(gid, m, generation, now) =>
      if Fenced(groups, gid, m, generation).Ok? { BeatFenced(groups, gid, m, generation, now); }
    case Heartbeat(gid, m, generation, now) =>
      if Fenced(groups, gid, m, generation).Ok? { BeatFenced(groups, gid, m, generation, now); }
    case LeaveGroup(gid, m) =>
      if gid == id && m in g.members {
        assert (g.members - {m}).Keys < g.members.Keys by { assert m !in (g.members - {m}).Keys; }
        FewerLater(g, g.members - {m});
      }
    case Scan(now, timeout) => ScanFenced(g, now, timeout);
  }

  lemma BeatFenced(groups: GroupMap, gid: bytes, m: bytes, generation: i32, now: int)
    requires Fenced(groups, gid, m, generation).Ok?
    ensures gid in groups && m in groups[gid].members && Fenced(groups, gid, m, generation).value == groups[gid]
    ensures Later(groups[gid], Heard(groups[gid], m, now))
    ensures Heard(groups[gid], m, now).members.Keys == groups[gid].members.Keys
    ensures Heard(groups[gid], m, now).generation == groups[gid].generation
  {
    hide SafeName, Later, Heard;
    HeardLater(groups[gid], m, now);
  }

  lemma ScanFenced(g: Group, now: int, timeout: int)
    requires Sane(g) && g.generation < MAX_GENERATION && Scanned(g, now, timeout).Some?
    ensures var g' := Scanned(g, now, timeout).value;
      Later(g, g') && g'.generation == if g'.members.Keys == g.members.Keys then g.generation else g.generation + 1
  {
    hide Later, NextGeneration, Regular;
    LaterSame(g);
    var alive := Alive(g.members, now, timeout);
    if alive != g.members {
      assert alive.Keys < g.members.Keys by {
        assert alive.Keys == g.members.Keys ==> alive == g.members;
      }
      FewerLater(g, alive);
    }
  }

  lemma JoinFenced(groups: GroupMap, q: JoinRequest, count: u32, now: int, id: bytes)
    requires AllSane(groups) && id in groups && groups[id].generation < MAX_GENERATION
    ensures id in Join(groups, q, count, now).0
    ensures var (g, g') := (groups[id], Join(groups, q, count, now).0[id]);
      Later(g, g') && g'.generation == if g'.members.Keys == g.members.Keys then g.generation else g.generation + 1
  {
    hide Regular, Later, Heard, NextGeneration, Enrolled, SafeName, ValidTopicName, MemberId;
    var g := groups[id];
    LaterSame(g);
    if q.groupId == id && WellFormedJoin(q, count) && GroupFor(groups, q, count).Ok? {
      assert Sane(g);
      if q.memberId == [] {
        JoinNewSane(g, now);
        NewIdLater(g, now);
        assert MemberId(g.nextSequence) in NextGeneration(Enrolled(g, now)).members.Keys;
      } else if q.memberId in g.members {
        MembersMeanGeneration(g, q.memberId);
        HeardLater(g, q.memberId, now);
      }
    }
  }

  // ---- Runs ----

  ghost predicate IsRun(states: seq<GroupMap>, events: seq<Event>) {
    && |states| == |events| + 1 && states[0] == map[]
    && forall i :: 0 <= i < |events| ==> StepAt(states, events, i)
  }

  ghost predicate StepAt(states: seq<GroupMap>, events: seq<Event>, i: nat)
    requires i < |events| && |states| == |events| + 1
  {
    states[i + 1] == Stepped(states[i], events[i])
  }

  /** One life of a group: it exists throughout, and has not come to its last possible generation. */
  ghost predicate Lives(states: seq<GroupMap>, id: bytes, i: nat, j: nat)
    requires i <= j < |states|
  {
    forall k :: i <= k <= j ==> id in states[k] && states[k][id].generation < MAX_GENERATION
  }

  lemma {:induction false} RunSane(states: seq<GroupMap>, events: seq<Event>, n: nat)
    requires IsRun(states, events) && n < |states|
    ensures AllSane(states[n])
  {
    hide Stepped, Sane;
    if n > 0 {
      RunSane(states, events, n - 1);
      assert StepAt(states, events, n - 1);
      StepKeepsSane(states[n - 1], events[n - 1]);
    }
  }

  /** Any two moments in one life of a group, in any run, are fenced off from each other. */
  lemma {:induction false} RunFenced(states: seq<GroupMap>, events: seq<Event>, id: bytes, i: nat, j: nat)
    requires IsRun(states, events) && i <= j < |states| && Lives(states, id, i, j)
    ensures Later(states[i][id], states[j][id])
    decreases j - i
  {
    hide Stepped, AllSane, Later;
    if i == j {
      LaterSame(states[i][id]);
    } else {
      RunFenced(states, events, id, i, j - 1);
      RunSane(states, events, j - 1);
      assert StepAt(states, events, j - 1);
      StepFenced(states[j - 1], events[j - 1], id);
      LaterTransitive(states[i][id], states[j - 1][id], states[j][id]);
    }
  }

  // ---- What members can rely on ----

  /** A group that is assigned in ranges leaves no partition out and deals none twice. */
  lemma BalancedCover(g: Group, p: u32) returns (owner: bytes)
    requires Regular(g) && g.members != map[] && g.generation < MAX_GENERATION && p < g.partitionCount
    ensures owner in g.members && ToI32(p) in g.members[owner].assignment.partitions
    ensures forall id :: id in g.members && ToI32(p) in g.members[id].assignment.partitions ==> id == owner
  {
    hide Sorted, Rank, Block, Issued;
    var keys, n := g.members.Keys, |g.members|;
    assert n == |keys|;
    BlocksAdjoin(g.partitionCount, n, n - 1);
    var i := BlockFor(g.partitionCount, n, p, n - 1);
    RankOf(keys, i);
    owner := Sorted(keys)[i];
    forall id | id in g.members && ToI32(p) in g.members[id].assignment.partitions ensures id == owner {
      BlocksDisjoint(g.partitionCount, n, Rank(keys, id), i, p);
    }
  }

  /** In every reachable group below the last generation with members, the least member id leads, every
      partition has exactly one owner, and no two members' shares differ by more than one partition. */
  lemma ReachableAssignment(states: seq<GroupMap>, events: seq<Event>, id: bytes, a: bytes, b: bytes, p: u32)
    requires IsRun(states, events) && id in states[|events|]
    requires var g := states[|events|][id];
      g.generation < MAX_GENERATION && a in g.members && b in g.members && p < g.partitionCount
    ensures var g := states[|events|][id];
      && IsLeast(g.leader, g.members.Keys)
      && (exists owner :: owner in g.members && ToI32(p) in g.members[owner].assignment.partitions)
      && (ToI32(p) in g.members[a].assignment.partitions && ToI32(p) in g.members[b].assignment.partitions ==> a == b)
      && |g.members[a].assignment.partitions| <= |g.members[b].assignment.partitions| + 1
  {
    hide Stepped, Rank, Issued, StepAt;
    RunSane(states, events, |events|);
    var g := states[|events|][id];
    assert Sane(g);
    var owner := BalancedCover(g, p);
    var keys, n := g.members.Keys, |g.members|;
    assert n == |keys|;
    ShareSizes(g.partitionCount, n, Rank(keys, a), Rank(keys, b));
  }

  lemma ShareSizes(partitions: u32, members: nat, i: nat, j: nat)
    requires i < members < TWO_32 && j < members
    ensures |Block(partitions, members, i)| <= |Block(partitions, members, j)| + 1
  {
    hide BlockStart, BlockSize;
    if i < j { BlocksBalanced(partitions, members, i, j); }
    if j < i { BlocksBalanced(partitions, members, j, i); }
  }

  ghost function SyncReplyAt(states: seq<GroupMap>, events: seq<Event>, i: nat): Result<SyncReply>
    requires i < |events| && |states| == |events| + 1 && events[i].SyncGroup?
  {
    Sync(states[i], events[i].groupId, events[i].memberId, events[i].generation, events[i].now).1
  }

  lemma SyncReplyHolds(states: seq<GroupMap>, events: seq<Event>, i: nat)
    requires i < |events| && |states| == |events| + 1 && events[i].SyncGroup? && SyncReplyAt(states, events, i).Ok?
    ensures var (e, r) := (events[i], SyncReplyAt(states, events, i).value);
      && e.groupId in states[i] && e.memberId in states[i][e.groupId].members
      && r == SyncReply(e.groupId, e.memberId, states[i][e.groupId].generation,
                        states[i][e.groupId].members[e.memberId].assignment)
  {
    hide SafeName;
  }

  /** All successful SyncGroup replies for one generation of one life of a group come from a single
      assignment: the same member always gets the same share, and different members never share a
      partition, however far apart the two requests are. */
  lemma SyncsOfOneGenerationAgree(states: seq<GroupMap>, events: seq<Event>, i: nat, j: nat, p: u32)
    requires IsRun(states, events) && i <= j < |events|
    requires events[i].SyncGroup? && events[j].SyncGroup? && events[i].groupId == events[j].groupId
    requires Lives(states, events[i].groupId, i, j)
    requires SyncReplyAt(states, events, i).Ok? && SyncReplyAt(states, events, j).Ok?
    requires SyncReplyAt(states, events, i).value.generation == SyncReplyAt(states, events, j).value.generation
    ensures var (r, r') := (SyncReplyAt(states, events, i).value, SyncReplyAt(states, events, j).value);
      && (r.memberId == r'.memberId ==> r.assignment == r'.assignment)
      && (r.memberId != r'.memberId && p < states[i][events[i].groupId].partitionCount ==>
            !(ToI32(p) in r.assignment.partitions && ToI32(p) in r'.assignment.partitions))
  {
    hide Stepped, StepAt, Issued, SyncReplyAt, Balanced, AllSane;
    SyncReplyHolds(states, events, i);
    SyncReplyHolds(states, events, j);
    var id := events[i].groupId;
    RunFenced(states, events, id, i, j);
    RunSane(states, events, i);
    SaneAt(states[i], id);
    var g := states[i][id];
    if p < g.partitionCount {
      var owner := BalancedCover(g, p);
    }
  }

  lemma SaneAt(groups: GroupMap, id: bytes)
    requires AllSane(groups) && id in groups
    ensures Sane(groups[id])
  {
    hide Regular;
  }

  ghost function JoinReplyAt(states: seq<GroupMap>, events: seq<Event>, i: nat): Result<JoinReply>
    requires i < |events| && |states| == |events| + 1 && events[i].JoinGroup?
  {
    Join(states[i], events[i].request, events[i].partitionCount, events[i].now).1
  }

  /** A member that joins without an id never gets one that anybody had at any earlier moment of the
      same life of the group. */
  lemma MemberIdsNeverReissued(states: seq<GroupMap>, events: seq<Event>, i: nat, j: nat)
    requires IsRun(states, events) && i <= j < |events| && events[j].JoinGroup? && events[j].request.memberId == []
    requires Lives(states, events[j].request.groupId, i, j)
    requires JoinReplyAt(states, events, j).Ok?
    ensures JoinReplyAt(states, events, j).value.memberId !in states[i][events[j].request.groupId].members
  {
    hide Stepped, StepAt, AllSane, MemberId, NextGeneration, Enrolled, SafeName, ValidTopicName, Balanced;
    var id := events[j].request.groupId;
    RunFenced(states, events, id, i, j);
    RunSane(states, events, i);
    SaneAt(states[i], id);
    var g, g' := states[i][id], states[j][id];
    assert JoinReplyAt(states, events, j).value.memberId == MemberId(g'.nextSequence);
    if MemberId(g'.nextSequence) in g.members {
      assert Issued(MemberId(g'.nextSequence), 1, g.nextSequence);
      var k: nat :| 1 <= k < g.nextSequence && MemberId(g'.nextSequence) == MemberId(k);
      MemberIdInjective(k, g'.nextSequence);
    }
  }

  /** Nor one that was given to anybody else who joined in between. */
  lemma NewMembersDiffer(states: seq<GroupMap>, events: seq<Event>, i: nat, j: nat)
    requires IsRun(states, events) && i < j < |events| && events[i].JoinGroup? && events[j].JoinGroup?
    requires events[i].request.memberId == [] && events[j].request.memberId == []
    requires events[i].request.groupId == events[j].request.groupId
      && Lives(states, events[j].request.groupId, i + 1, j)
    requires JoinReplyAt(states, events, i).Ok? && JoinReplyAt(states, events, j).Ok?
    ensures JoinReplyAt(states, events, i).value.memberId != JoinReplyAt(states, events, j).value.memberId
  {
    hide AllSane, Sane, Lives, Issued, IsRun, StepAt, SafeName, ValidTopicName;
    hide Stepped, Join;
    RunStep(states, events, i);
    NewMemberIsIn(states[i], events[i]);
    MemberIdsNeverReissued(states, events, i + 1, j);
  }

  lemma RunStep(states: seq<GroupMap>, events: seq<Event>, i: nat)
    requires IsRun(states, events) && i < |events|
    ensures |states| == |events| + 1 && states[i + 1] == Stepped(states[i], events[i])
  {
    hide Stepped;
    assert StepAt(states, events, i);
  }

  lemma NewMemberIsIn(groups: GroupMap, e: Event)
    requires e.JoinGroup? && e.request.memberId == [] && Join(groups, e.request, e.partitionCount, e.now).1.Ok?
    ensures var id := e.request.groupId;
      id in Stepped(groups, e)
      && Join(groups, e.request, e.partitionCount, e.now).1.value.memberId in Stepped(groups, e)[id].members
  {
    hide Assigned, MemberId, SafeName, ValidTopicName;
    var found := GroupFor(groups, e.request, e.partitionCount).value;
    var g := Enrolled(found, e.now);
    AssignedKeeps(g.(generation := (g.generation + 1)));
    assert MemberId(found.nextSequence) in g.members;
  }

  /** Once the membership has changed, every generation from before is refused, by SyncGroup and by
      Heartbeat, whoever asks. */
  lemma StaleGenerationRefused(states: seq<GroupMap>, events: seq<Event>, id: bytes, i: nat, j: nat, member: bytes,
                               now: int)
    requires IsRun(states, events) && i <= j < |states| && Lives(states, id, i, j)
    requires states[i][id].members.Keys != states[j][id].members.Keys
    ensures Sync(states[j], id, member, states[i][id].generation, now).1.Err?
    ensures Beat(states[j], id, member, states[i][id].generation, now).1.Err?
    ensures states[i][id].generation < states[j][id].generation
  {
    hide Stepped, StepAt, Issued, SafeName;
    RunFenced(states, events, id, i, j);
  }

  // ---- The last generation ----

  /** A newcomer opens a new generation if and only if the last one has not been reached: there it
      is refused with an internal error, yet stays enrolled, without any partition, in the
      same generation. */
  lemma JoinAtLastGeneration(groups: GroupMap, q: JoinRequest, count: u32, now: int)
    requires WellFormedJoin(q, count) && q.memberId == [] && GroupFor(groups, q, count).Ok?
    ensures var (groups', r) := Join(groups, q, count, now);
      var g := GroupFor(groups, q, count).value;
      && q.groupId in groups'
      && (r.Ok? <==> g.generation < MAX_GENERATION)
      && groups'[q.groupId].generation == (if r.Ok? then g.generation + 1 else g.generation)
      && MemberId(g.nextSequence) in groups'[q.groupId].members
      && (r.Err? && MemberId(g.nextSequence) !in g.members ==>
            r.error == Internal && groups'[q.groupId].members[MemberId(g.nextSequence)].assignment.partitions == [])
  {
    hide Assigned, MemberId, SafeName, ValidTopicName;
    var g := Enrolled(GroupFor(groups, q, count).value, now);
    if g.generation < MAX_GENERATION {
      AssignedKeeps(g.(generation := g.generation + 1));
    }
  }

  /** Whatever changes the members of a group that survives it, a join, a leave or a scan: it opens a new
      generation if and only if the last one has not been reached, and otherwise stays in that one. */
  lemma ChangeOpensGenerationIff(groups: GroupMap, e: Event, id: bytes)
    requires AllSane(groups) && id in groups && id in Stepped(groups, e)
    requires Stepped(groups, e)[id].members.Keys != groups[id].members.Keys
    ensures Stepped(groups, e)[id].generation ==
      if groups[id].generation < MAX_GENERATION then groups[id].generation + 1 else groups[id].generation
    ensures Stepped(groups, e)[id].generation == groups[id].generation + 1 <==> groups[id].generation < MAX_GENERATION
  {
    hide Assigned, MemberId, SafeName, ValidTopicName, Regular;
    var g := groups[id];
    if g.generation < MAX_GENERATION {
      StepFenced(groups, e, id);
    } else {
      match e
      case JoinGroup(q, count, now) =>
      case SyncGroup(_, _, _, _) =>
      case Heartbeat(_, _, _, _) =>
      case LeaveGroup(_, _) =>
      case Scan(now, timeout) =>
        AssignedKeeps(g.(members := Alive(g.members, now, timeout)));
    }
  }

  /** A newcomer's join, below the last generation. */
  lemma NewcomerJoins(groups: GroupMap, q: JoinRequest, count: u32, now: int)
    requires WellFormedJoin(q, count) && q.memberId == [] && GroupFor(groups, q, count).Ok?
    requires GroupFor(groups, q, count).value.generation < MAX_GENERATION
    ensures var groups' := Stepped(groups, JoinGroup(q, count, now));
      && q.groupId in groups' && GroupFor(groups', q, count) == Ok(groups'[q.groupId])
      && groups'[q.groupId].generation == GroupFor(groups, q, count).value.generation + 1
  {
    hide Assigned, MemberId, SafeName, ValidTopicName;
    var g := Enrolled(GroupFor(groups, q, count).value, now);
    AssignedKeeps(g.(generation := g.generation + 1));
  }

  lemma RunLengthened(states: seq<GroupMap>, events: seq<Event>, e: Event)
    requires IsRun(states, events)
    ensures IsRun(states + [Stepped(states[|events|], e)], events + [e])
  {
    hide Stepped;
    var longer, past := states + [Stepped(states[|events|], e)], events + [e];
    forall i | 0 <= i < |past| ensures StepAt(longer, past, i) {
      if i < |events| { assert StepAt(states, events, i); }
    }
  }

  /** Every generation can be reached, the last one included: by that many newcomers, one after another. */
  lemma {:induction false} GenerationReached(q: JoinRequest, count: u32, now: int, n: nat)
    returns (states: seq<GroupMap>, events: seq<Event>)
    requires WellFormedJoin(q, count) && q.memberId == [] && 0 < n <= MAX_GENERATION
    ensures IsRun(states, events) && |events| == n && forall i :: 0 <= i < n ==> events[i] == JoinGroup(q, count, now)
    ensures q.groupId in states[n] && states[n][q.groupId].generation == n
    ensures GroupFor(states[n], q, count) == Ok(states[n][q.groupId])
    decreases n
  {
    hide Stepped, StepAt, WellFormedJoin;
    var e := JoinGroup(q, count, now);
    if n == 1 {
      states, events := [map[]], [];
    } else {
      states, events := GenerationReached(q, count, now, n - 1);
    }
    NewcomerJoins(states[n - 1], q, count, now);
    RunLengthened(states, events, e);
    states, events := states + [Stepped(states[n - 1], e)], events + [e];
  }

  /** A run to the last generation and one newcomer more, who is refused and yet enrolled. */
  lemma LastGenerationRun(q: JoinRequest, count: u32, now: int) returns (states: seq<GroupMap>, events: seq<Event>)
    requires WellFormedJoin(q, count) && q.memberId == []
    ensures IsRun(states, events) && |events| == MAX_GENERATION
    ensures q.groupId in states[|events|] && states[|events|][q.groupId].generation == MAX_GENERATION
    ensures var (after, r) := Join(states[|events|], q, count, now);
      && r == Err(Internal) && q.groupId in after && after[q.groupId].generation == MAX_GENERATION
      && MemberId(states[|events|][q.groupId].nextSequence) in after[q.groupId].members
  {
    hide Stepped, StepAt, Join, WellFormedJoin, MemberId;
    states, events := GenerationReached(q, count, now, MAX_GENERATION);
    JoinAtLastGeneration(states[|events|], q, count, now);
    LastJoinCode(states[|events|], q, count, now);
  }

  lemma LastJoinCode(groups: GroupMap, q: JoinRequest, count: u32, now: int)
    requires WellFormedJoin(q, count) && q.memberId == [] && GroupFor(groups, q, count).Ok?
    requires GroupFor(groups, q, count).value.generation == MAX_GENERATION
    ensures Join(groups, q, count, now).1 == Err(Internal)
  {
    hide Assigned, MemberId, SafeName, ValidTopicName;
  }

  // ---- Groups without members ----

  /** A step leaves an empty group under a name that had none if and only if it is a rejoin of that
      name, with a member id nobody can have; the rejoin itself is refused. */
  lemma EmptyGroupAppearsIff(groups: GroupMap, e: Event, id: bytes)
    requires id !in groups
    ensures id in Stepped(groups, e) && Stepped(groups, e)[id].members == map[] <==>
      && e.JoinGroup? && e.request.groupId == id && e.request.memberId != []
      && WellFormedJoin(e.request, e.partitionCount)
    ensures id in Stepped(groups, e) && Stepped(groups, e)[id].members == map[] ==>
      && Stepped(groups, e)[id] == Group(e.request.topic, e.partitionCount, 0, 1, [], map[])
      && Join(groups, e.request, e.partitionCount, e.now).1 == Err(UnknownMember)
  {
    hide SafeName, ValidTopicName, Assigned, MemberId;
    if e.JoinGroup? && e.request.groupId == id && e.request.memberId == []
      && WellFormedJoin(e.request, e.partitionCount) {
      var g := Enrolled(Group(e.request.topic, e.partitionCount, 0, 1, [], map[]), e.now);
      AssignedKeeps(g.(generation := 1));
      assert MemberId(1) in g.members;
    }
  }

  lemma EmptyGroupStays(groups: GroupMap, id: bytes, now: int, timeout: int)
    requires id in groups && groups[id].members == map[]
    ensures id in Expire(groups, now, timeout) && Expire(groups, now, timeout)[id] == groups[id]
  {
    var alive := Alive(groups[id].members, now, timeout);
    assert alive == map[];
    assert Scanned(groups[id], now, timeout) == Some(groups[id]);
  }

  /** An empty group is never removed, by a scan or otherwise, and changes if and only if a newcomer joins
      it for the very topic and partition count it was created with: it keeps every other topic out. */
  lemma EmptyGroupChangesIff(groups: GroupMap, e: Event, id: bytes)
    requires id in groups && groups[id].members == map[]
    ensures id in Stepped(groups, e)
    ensures Stepped(groups, e)[id] != groups[id] <==>
      && e.JoinGroup? && e.request.groupId == id && e.request.memberId == []
      && WellFormedJoin(e.request, e.partitionCount)
      && e.request.topic == groups[id].topic && e.partitionCount == groups[id].partitionCount
  {
    hide SafeName, ValidTopicName, Assigned, MemberId, Expire;
    match e
    case JoinGroup(q, count, now) =>
      if q.groupId == id && q.memberId == [] && WellFormedJoin(q, count) && GroupFor(groups, q, count).Ok? {
        var g := Enrolled(groups[id], now);
        AssignedKeeps(g.(generation := if g.generation < MAX_GENERATION then g.generation + 1 else 0));
        assert MemberId(groups[id].nextSequence) in g.members;
      }
    case SyncGroup(_, _, _, _) =>
    case Heartbeat(_, _, _, _) =>
    case LeaveGroup(_, _) =>
    case Scan(now, timeout) => EmptyGroupStays(groups, id, now, timeout);
  }

  /** Below the last generation, the groups without members are exactly those of generation 0. */
  lemma ReachableEmptyGroups(states: seq<GroupMap>, events: seq<Event>, id: bytes)
    requires IsRun(states, events) && id in states[|events|] && states[|events|][id].generation < MAX_GENERATION
    ensures states[|events|][id].members == map[] <==> states[|events|][id].generation == 0
  {
    hide Stepped, StepAt, Balanced, Issued;
    RunSane(states, events, |events|);
    assert Sane(states[|events|][id]);
  }

  // ---- Expiry ----

  /** A member whose heartbeat was accepted is not expired by any scan within the session timeout, and
      one that stays silent longer is. */
  lemma HeartbeatKeepsMember(groups: GroupMap, groupId: bytes, memberId: bytes, generation: i32, heard: int,
                             now: int, timeout: int)
    requires Beat(groups, groupId, memberId, generation, heard).1.Ok?
    ensures var scanned := Expire(Beat(groups, groupId, memberId, generation, heard).0, now, timeout);
      now - heard <= timeout <==> groupId in scanned && memberId in scanned[groupId].members
  {
    hide SafeName, Assigned;
    var g := Heard(groups[groupId], memberId, heard);
    var alive := Alive(g.members, now, timeout);
    AssignedKeeps(g.(members := alive));
    if g.generation < MAX_GENERATION {
      AssignedKeeps(g.(members := alive, generation := g.generation + 1));
    }
    assert memberId in alive <==> now - heard <= timeout;
  }
}
