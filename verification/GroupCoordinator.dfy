/** The consumer-group coordinator: membership, generations and range assignment. */
module GroupCoordinators {
  import opened Basics
  import opened Decimal
  import opened Topics
  import opened SortedKeys
  import opened PartitionRanges

  datatype PartitionAssignment = PartitionAssignment(topic: bytes, partitions: seq<i32>)

  /** heard is the steady-clock time of the last sign of life. */
  datatype Member = Member(heard: int, assignment: PartitionAssignment)

  datatype Group = Group(
    topic: bytes, partitionCount: u32, generation: i32, nextSequence: u64, leader: bytes, members: map<bytes, Member>)

  type GroupMap = map<bytes, Group>

  const MAX_GENERATION: i32 := 0x7FFF_FFFF

  /** "member-" */
  const MEMBER_PREFIX: bytes := [109, 101, 109, 98, 101, 114, 45]

  function MemberId(sequence: nat): (id: bytes)
    ensures id != []
  {
    MEMBER_PREFIX + Printed(sequence)
  }

  // ---- Assignment ----

  ghost function AssignmentFor(g: Group, id: bytes): PartitionAssignment
    requires id in g.members
  {
    PartitionAssignment(g.topic, Block(g.partitionCount, |g.members|, Rank(g.members.Keys, id)))
  }

  /** The least member leads, and every member gets the block of its rank. */
  ghost function Assigned(g: Group): Group {
    if g.members == map[] then g.(leader := [])
    else
      g.(leader := Sorted(g.members.Keys)[0],
         members := map id | id in g.members :: g.members[id].(assignment := AssignmentFor(g, id)))
  }

  /** Everyone but the remaining members has the assignment of their rank. */
  ghost predicate AssignedSoFar(g: Group, members: map<bytes, Member>, remaining: set<bytes>) {
    && members.Keys == g.members.Keys
    && forall id :: id in g.members ==>
         members[id] == if id in remaining then g.members[id] else g.members[id].(assignment := AssignmentFor(g, id))
  }

  /** The walk over the keys has reached an index and has the remaining ones ahead. */
  ghost predicate Ahead(keys: set<bytes>, remaining: set<bytes>, index: nat) {
    remaining <= keys && index <= |Sorted(keys)| && Sorted(remaining) == Sorted(keys)[index..]
  }

  lemma AheadOfAll(keys: set<bytes>)
    ensures Ahead(keys, keys, 0)
  {
    hide Sorted;
  }

  lemma AssignNext(keys: set<bytes>, remaining: set<bytes>, index: nat, id: bytes)
    requires Ahead(keys, remaining, index) && IsLeast(id, remaining)
    ensures index < |keys| && id in keys && id in remaining && Rank(keys, id) == index
    ensures Ahead(keys, remaining - {id}, index + 1)
  {
    LeastIn(remaining, id);
    hide Sorted, IsLeast, Rank;
    SortedNext(remaining, id);
    TailSplit(Sorted(keys), index, id, Sorted(remaining - {id}));
    RankOf(keys, index);
  }

  lemma TailSplit(all: seq<bytes>, index: nat, first: bytes, rest: seq<bytes>)
    requires index <= |all| && all[index..] == [first] + rest
    ensures index < |all| && all[index] == first && rest == all[index + 1..]
  {
    assert |all[index..]| > 0;
    assert all[index..][0] == first;
    assert all[index..][1..] == rest;
  }

  /** AssignLocked. */
  method AssignLocked(g: Group) returns (r: Group)
    ensures r == Assigned(g)
  {
    hide BlockStart, BlockSize, Sorted, IsLeast, Rank, Ahead, AssignedSoFar, AssignmentFor, Assigned, Ids;
    if g.members == map[] {
      r := g.(leader := []);
      NobodyAssigned(g);
      return;
    }
    var leader := NextKey(g.members.Keys);
    SortedNext(g.members.Keys, leader);
    var count, members, remaining := |g.members|, g.members, g.members.Keys;
    var index: nat := 0;
    NoneAssigned(g);
    AheadOfAll(g.members.Keys);
    while remaining != {}
      invariant members.Keys == g.members.Keys && Ahead(g.members.Keys, remaining, index)
      invariant AssignedSoFar(g, members, remaining)
      decreases |remaining|
    {
      var id := NextKey(remaining);
      AssignNext(g.members.Keys, remaining, index, id);
      var start, size := BlockStart(g.partitionCount, count, index), BlockSize(g.partitionCount, count, index);
      var ids := ListIds(start, size);
      assert ids == Block(g.partitionCount, count, index);
      AssignOneMore(g, members, remaining, id, index, ids);
      members := members[id := members[id].(assignment := PartitionAssignment(g.topic, ids))];
      remaining := remaining - {id};
      index := index + 1;
    }
    AllAssigned(g, members, leader);
    r := g.(leader := leader, members := members);
  }

  lemma NobodyAssigned(g: Group)
    requires g.members == map[]
    ensures Assigned(g) == g.(leader := [])
  {
  }

  lemma NoneAssigned(g: Group)
    ensures AssignedSoFar(g, g.members, g.members.Keys)
  {
    hide Block, Rank;
  }

  lemma AssignOneMore(g: Group, members: map<bytes, Member>, remaining: set<bytes>, id: bytes,
                      index: nat, ids: seq<i32>)
    requires AssignedSoFar(g, members, remaining) && id in remaining && id in g.members
    requires Rank(g.members.Keys, id) == index && ids == Block(g.partitionCount, |g.members|, index)
    ensures AssignedSoFar(g, members[id := members[id].(assignment := PartitionAssignment(g.topic, ids))],
                          remaining - {id})
  {
    hide Block, Rank;
  }

  lemma AllAssigned(g: Group, members: map<bytes, Member>, leader: bytes)
    requires AssignedSoFar(g, members, {}) && g.members != map[] && leader == Sorted(g.members.Keys)[0]
    ensures g.(leader := leader, members := members) == Assigned(g)
  {
    hide Block, Rank, Sorted;
    assert members == Assigned(g).members;
  }

  lemma LeastIn(s: set<bytes>, m: bytes)
    requires IsLeast(m, s)
    ensures m in s
  {
  }

  /** A changed membership opens a new generation with a new assignment. */
  ghost function NextGeneration(g: Group): Group
    requires g.generation < MAX_GENERATION
  {
    Assigned(g.(generation := g.generation + 1))
  }

  // ---- JoinGroup ----

  datatype JoinRequest = JoinRequest(groupId: bytes, memberId: bytes, topic: bytes)
  datatype JoinReply = JoinReply(groupId: bytes, memberId: bytes, generation: i32, leader: bytes)

  predicate WellFormedJoin(q: JoinRequest, partitionCount: u32) {
    && SafeName(q.groupId) && (q.memberId != [] ==> SafeName(q.memberId)) && ValidTopicName(q.topic)
    && partitionCount > 0
  }

  /** The group of that name, which a first request creates. */
  function GroupFor(groups: GroupMap, q: JoinRequest, partitionCount: u32): Result<Group> {
    if q.groupId !in groups then Ok(Group(q.topic, partitionCount, 0, 1, [], map[]))
    else
      var g := groups[q.groupId];
      if g.topic != q.topic || g.partitionCount != partitionCount then Err(InvalidArgument) else Ok(g)
  }

  /** A new member, under the next id; an id already taken is left as it is. */
  function Enrolled(g: Group, now: int): Group {
    var id := MemberId(g.nextSequence);
    g.(nextSequence := (g.nextSequence + 1) % TWO_64,
       members := if id in g.members then g.members else g.members[id := Member(now, PartitionAssignment(g.topic, []))])
  }

  function Heard(g: Group, id: bytes, now: int): Group
    requires id in g.members
  {
    g.(members := g.members[id := g.members[id].(heard := now)])
  }

  ghost function Join(groups: GroupMap, q: JoinRequest, partitionCount: u32, now: int): (GroupMap, Result<JoinReply>) {
    var found := GroupFor(groups, q, partitionCount);
    if !WellFormedJoin(q, partitionCount) then (groups, Err(InvalidArgument))
    else if found.Err? then (groups, Err(found.error))
    else if q.memberId != [] && q.memberId !in found.value.members
    // a group created for the request stays behind without members
    then (groups[q.groupId := found.value], Err(UnknownMember))
    else
      var id := if q.memberId == [] then MemberId(found.value.nextSequence) else q.memberId;
      var g := if q.memberId == [] then Enrolled(found.value, now) else Heard(found.value, id, now);
      if q.memberId == [] || g.generation == 0 then
        if g.generation == MAX_GENERATION then (groups[q.groupId := g], Err(Internal))
        else
          var next := NextGeneration(g);
          (groups[q.groupId := next], Ok(JoinReply(q.groupId, id, next.generation, next.leader)))
      else (groups[q.groupId := g], Ok(JoinReply(q.groupId, id, g.generation, g.leader)))
  }

  // ---- SyncGroup and Heartbeat ----

  datatype SyncReply = SyncReply(groupId: bytes, memberId: bytes, generation: i32, assignment: PartitionAssignment)
  datatype HeartbeatReply = HeartbeatReply(groupId: bytes, memberId: bytes, generation: i32)

  /** The checks SyncGroup and Heartbeat share. */
  function Fenced(groups: GroupMap, groupId: bytes, memberId: bytes, generation: i32): Result<Group> {
    if !SafeName(groupId) || !SafeName(memberId) then Err(InvalidArgument)
    else if generation <= 0 then Err(IllegalGeneration)
    else if groupId !in groups then Err(UnknownMember)
    else if memberId !in groups[groupId].members then Err(UnknownMember)
    else if generation != groups[groupId].generation then Err(IllegalGeneration)
    else Ok(groups[groupId])
  }

  function Sync(groups: GroupMap, groupId: bytes, memberId: bytes, generation: i32, now: int)
    : (GroupMap, Result<SyncReply>)
  {
    var g := Fenced(groups, groupId, memberId, generation);
    if g.Err? then (groups, Err(g.error))
    else (groups[groupId := Heard(g.value, memberId, now)],
          Ok(SyncReply(groupId, memberId, g.value.generation, g.value.members[memberId].assignment)))
  }

  function Beat(groups: GroupMap, groupId: bytes, memberId: bytes, generation: i32, now: int)
    : (GroupMap, Result<HeartbeatReply>)
  {
    var g := Fenced(groups, groupId, memberId, generation);
    if g.Err? then (groups, Err(g.error))
    else (groups[groupId := Heard(g.value, memberId, now)], Ok(HeartbeatReply(groupId, memberId, g.value.generation)))
  }

  // ---- LeaveGroup ----

  datatype LeaveReply = LeaveReply(groupId: bytes, memberId: bytes, generation: i32)

  ghost function Leave(groups: GroupMap, groupId: bytes, memberId: bytes): (GroupMap, Result<LeaveReply>) {
    if !SafeName(groupId) || !SafeName(memberId) then (groups, Err(InvalidArgument))
    else if groupId !in groups || memberId !in groups[groupId].members then (groups, Err(UnknownMember))
    else
      var g := groups[groupId].(members := groups[groupId].members - {memberId});
      if g.generation == MAX_GENERATION then (groups[groupId := g], Err(Internal))
      else
        var reply := LeaveReply(groupId, memberId, g.generation + 1);
        if g.members == map[] then (groups - {groupId}, Ok(reply))
        else (groups[groupId := NextGeneration(g)], Ok(reply))
  }

  // ---- Expiry ----

  function Alive(members: map<bytes, Member>, now: int, timeout: int): map<bytes, Member> {
    map id | id in members && now - members[id].heard <= timeout :: members[id]
  }

  /** A group after the scan; none if nobody is left. */
  ghost function Scanned(g: Group, now: int, timeout: int): Option<Group> {
    var alive := Alive(g.members, now, timeout);
    if alive == g.members then Some(g)
    else if alive == map[] then None
    else
      var fewer := g.(members := alive);
      Some(if g.generation < MAX_GENERATION then NextGeneration(fewer) else Assigned(fewer))
  }

  ghost function Expire(groups: GroupMap, now: int, timeout: int): GroupMap {
    map id | id in groups && Scanned(groups[id], now, timeout).Some? :: Scanned(groups[id], now, timeout).value
  }

  // ---- The coordinator ----

  class GroupCoordinator {
    const sessionTimeout: int
    var groups: GroupMap

    constructor (sessionTimeout: int)
      ensures groups == map[] && this.sessionTimeout == sessionTimeout
    {
      this.sessionTimeout := sessionTimeout;
      this.groups := map[];
    }

    method JoinGroup(q: JoinRequest, partitionCount: u32, now: int) returns (r: Result<JoinReply>)
      modifies this`groups
      ensures (groups, r) == Join(old(groups), q, partitionCount, now)
    {
      hide Assigned, Printed;
      if !SafeName(q.groupId) {
        return Err(InvalidArgument);
      }
      if q.memberId != [] {
        if !SafeName(q.memberId) {
          return Err(InvalidArgument);
        }
      }
      if !ValidTopicName(q.topic) || partitionCount == 0 {
        return Err(InvalidArgument);
      }
      var group := Group(q.topic, partitionCount, 0, 1, [], map[]);
      if q.groupId in groups {
        group := groups[q.groupId];
        if group.topic != q.topic || group.partitionCount != partitionCount {
          return Err(InvalidArgument);
        }
      } else {
        groups := groups[q.groupId := group];
      }
      var memberId := q.memberId;
      var membershipChanged := false;
      if memberId == [] {
        memberId := MemberId(group.nextSequence);
        group := group.(nextSequence := (group.nextSequence + 1) % TWO_64);
        membershipChanged := true;
        if memberId !in group.members {
          group := group.(members := group.members[memberId := Member(now, PartitionAssignment(q.topic, []))]);
        }
      } else {
        if memberId !in group.members {
          assert groups[q.groupId := group] == groups;
          return Err(UnknownMember);
        }
        group := group.(members := group.members[memberId := group.members[memberId].(heard := now)]);
      }
      if membershipChanged || group.generation == 0 {
        if group.generation == MAX_GENERATION {
          groups := groups[q.groupId := group];
          return Err(Internal);
        }
        group := AssignLocked(group.(generation := group.generation + 1));
      }
      groups := groups[q.groupId := group];
      assert groups == old(groups)[q.groupId := group];
      return Ok(JoinReply(q.groupId, memberId, group.generation, group.leader));
    }

    method SyncGroup(groupId: bytes, memberId: bytes, generation: i32, now: int) returns (r: Result<SyncReply>)
      modifies this`groups
      ensures (groups, r) == Sync(old(groups), groupId, memberId, generation, now)
    {
      if !SafeName(groupId) || !SafeName(memberId) {
        return Err(InvalidArgument);
      }
      if generation <= 0 {
        return Err(IllegalGeneration);
      }
      if groupId !in groups {
        return Err(UnknownMember);
      }
      var group := groups[groupId];
      if memberId !in group.members {
        return Err(UnknownMember);
      }
      if generation != group.generation {
        return Err(IllegalGeneration);
      }
      var member := group.members[memberId];
      groups := groups[groupId := group.(members := group.members[memberId := member.(heard := now)])];
      return Ok(SyncReply(groupId, memberId, group.generation, member.assignment));
    }

    method Heartbeat(groupId: bytes, memberId: bytes, generation: i32, now: int) returns (r: Result<HeartbeatReply>)
      modifies this`groups
      ensures (groups, r) == Beat(old(groups), groupId, memberId, generation, now)
    {
      if !SafeName(groupId) || !SafeName(memberId) {
        return Err(InvalidArgument);
      }
      if generation <= 0 {
        return Err(IllegalGeneration);
      }
      if groupId !in groups {
        return Err(UnknownMember);
      }
      var group := groups[groupId];
      if memberId !in group.members {
        return Err(UnknownMember);
      }
      if generation != group.generation {
        return Err(IllegalGeneration);
      }
      var member := group.members[memberId];
      groups := groups[groupId := group.(members := group.members[memberId := member.(heard := now)])];
      return Ok(HeartbeatReply(groupId, memberId, group.generation));
    }

    method LeaveGroup(groupId: bytes, memberId: bytes) returns (r: Result<LeaveReply>)
      modifies this`groups
      ensures (groups, r) == Leave(old(groups), groupId, memberId)
    {
      hide Assigned;
      if !SafeName(groupId) || !SafeName(memberId) {
        return Err(InvalidArgument);
      }
      if groupId !in groups {
        return Err(UnknownMember);
      }
      var group := groups[groupId];
      if memberId !in group.members {
        return Err(UnknownMember);
      }
      group := group.(members := group.members - {memberId});
      if group.generation == MAX_GENERATION {
        groups := groups[groupId := group];
        return Err(Internal);
      }
      group := group.(generation := group.generation + 1);
      var generation := group.generation;
      if group.members == map[] {
        groups := groups - {groupId};
      } else {
        group := AssignLocked(group);
        groups := groups[groupId := group];
      }
      return Ok(LeaveReply(groupId, memberId, generation));
    }

    /** ExpireTimedOutMembers at one reading of the steady clock. */
    method ExpireTimedOutMembers(now: int)
      modifies this`groups
      ensures groups == Expire(old(groups), now, sessionTimeout)
    {
      hide Scanned;
      var remaining := groups.Keys;
      while remaining != {}
        invariant remaining <= groups.Keys && remaining <= old(groups).Keys
        invariant forall id :: id in remaining ==> groups[id] == old(groups)[id]
        invariant forall id :: id in groups && id !in remaining ==>
          id in old(groups) && Scanned(old(groups)[id], now, sessionTimeout) == Some(groups[id])
        invariant forall id :: id in old(groups) && id !in remaining ==>
          Scanned(old(groups)[id], now, sessionTimeout).Some? ==> id in groups
        decreases |remaining|
      {
        var id :| id in remaining;
        var scanned := ScanGroup(groups[id], now);
        if scanned.None? {
          groups := groups - {id};
        } else {
          groups := groups[id := scanned.value];
        }
        remaining := remaining - {id};
      }
      assert groups.Keys == Expire(old(groups), now, sessionTimeout).Keys;
    }

    method ScanGroup(g: Group, now: int) returns (r: Option<Group>)
      ensures r == Scanned(g, now, sessionTimeout)
    {
      hide Assigned;
      var alive, changed := g.members, false;
      var remaining := g.members.Keys;
      while remaining != {}
        invariant remaining <= g.members.Keys
        invariant forall id :: id in alive <==>
          id in g.members && (id in remaining || now - g.members[id].heard <= sessionTimeout)
        invariant forall id :: id in alive ==> alive[id] == g.members[id]
        invariant changed <==> exists id :: id in g.members && id !in alive
        decreases |remaining|
      {
        var id :| id in remaining;
        if now - g.members[id].heard > sessionTimeout {
          alive := alive - {id};
          changed := true;
          assert id in g.members && id !in alive;
        }
        remaining := remaining - {id};
      }
      assert alive == Alive(g.members, now, sessionTimeout);
      assert changed <==> alive != g.members;
      if !changed {
        return Some(g);
      }
      var group := g.(members := alive);
      if group.generation < MAX_GENERATION {
        group := group.(generation := group.generation + 1);
      }
      if group.members == map[] {
        return None;
      }
      group := AssignLocked(group);
      return Some(group);
    }
  }
}
