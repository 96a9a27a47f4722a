/** Who is in a group after each request: the one named comes, stays or goes, and everybody else is left
    in peace. */
module GroupMembers {
  import opened Basics
  import opened Decimal
  import opened Topics
  import opened SortedKeys
  import opened PartitionRanges
  import opened GroupCoordinators
  import opened GroupRuns

  /** Every member of g' was one of g, and was last heard at the same time. */
  predicate HeardAsBefore(g: Group, g': Group) {
    forall id :: id in g'.members ==> id in g.members && g'.members[id].heard == g.members[id].heard
  }

  /** What a group is about. */
  predicate SameSubject(g: Group, g': Group) {
    g'.topic == g.topic && g'.partitionCount == g.partitionCount
  }

  /** All other groups are as they were. */
  ghost predicate OthersKept(groups: GroupMap, groups': GroupMap, groupId: bytes) {
    forall other :: other != groupId ==>
      (other in groups <==> other in groups') && (other in groups ==> groups'[other] == groups[other])
  }

  lemma AssignedHeard(g: Group)
    ensures HeardAsBefore(g, Assigned(g)) && SameSubject(g, Assigned(g))
  {
    hide Sorted, Rank, Block;
  }

  // ---- Leaving ----

  /** An accepted LeaveGroup takes out the member it names and nobody else, and leaves everybody's last
      sign of life as it was. The group is gone if and only if nobody else was in it; if it is not, it is
      in the generation of the reply, the one after the generation it was in. */
  lemma LeaverGoes(groups: GroupMap, groupId: bytes, memberId: bytes)
    requires Leave(groups, groupId, memberId).1.Ok?
    ensures var (groups', r) := Leave(groups, groupId, memberId);
      && groupId in groups && memberId in groups[groupId].members && OthersKept(groups, groups', groupId)
      && r.value.groupId == groupId && r.value.memberId == memberId
      && r.value.generation == groups[groupId].generation + 1
      && (groupId !in groups' <==> groups[groupId].members.Keys == {memberId})
      && (groupId in groups' ==>
            && groups'[groupId].members.Keys == groups[groupId].members.Keys - {memberId}
            && HeardAsBefore(groups[groupId], groups'[groupId]) && SameSubject(groups[groupId], groups'[groupId])
            && groups'[groupId].generation == r.value.generation)
  {
    hide Assigned, SafeName, HeardAsBefore;
    var g := groups[groupId];
    var fewer := g.(members := g.members - {memberId});
    NobodyElse(g.members, memberId);
    var next := fewer.(generation := g.generation + 1);
    AssignedKeeps(next);
    AssignedHeard(next);
    HeardThrough(g, next, Assigned(next));
  }

  lemma NobodyElse(members: map<bytes, Member>, id: bytes)
    requires id in members
    ensures (members - {id}).Keys == members.Keys - {id}
    ensures members - {id} == map[] <==> members.Keys == {id}
  {
    var others := members - {id};
    assert others == map[] <==> others.Keys == {};
    assert members.Keys == others.Keys + {id};
  }

  lemma HeardThrough(g: Group, fewer: Group, g': Group)
    requires HeardAsBefore(fewer, g')
    requires forall id :: id in fewer.members ==> id in g.members && fewer.members[id] == g.members[id]
    ensures HeardAsBefore(g, g')
  {
  }

  /** From then on the leaver is unknown to SyncGroup and Heartbeat, while everybody else can go on in the
      generation of the reply. */
  lemma LeaverRefused(groups: GroupMap, groupId: bytes, memberId: bytes, id: bytes, now: int)
    requires AllSane(groups) && Leave(groups, groupId, memberId).1.Ok?
    ensures var (groups', r) := Leave(groups, groupId, memberId);
      && Sync(groups', groupId, memberId, r.value.generation, now).1 == Err(UnknownMember)
      && Beat(groups', groupId, memberId, r.value.generation, now).1 == Err(UnknownMember)
      && (id in groups[groupId].members && id != memberId ==>
            && Sync(groups', groupId, id, r.value.generation, now).1.Ok?
            && Beat(groups', groupId, id, r.value.generation, now).1.Ok?)
  {
    hide Leave, SafeName, Regular, HeardAsBefore;
    LeaverGoes(groups, groupId, memberId);
    LeaverNamed(groups, groupId, memberId);
    SaneAt(groups, groupId);
    if id in groups[groupId].members {
      MemberIdsSafe(groups[groupId], id);
    }
  }

  /** A leave is refused as invalid for malformed names, as unknown for whoever is not a member, and with
      an internal error at the last generation. There the member goes all the same: nobody's share
      changes, and the group stays even if nobody is left in it. */
  lemma LeaveRefusedIff(groups: GroupMap, groupId: bytes, memberId: bytes)
    ensures var (groups', r) := Leave(groups, groupId, memberId);
      var known := groupId in groups && memberId in groups[groupId].members;
      && (r == Err(InvalidArgument) <==> !SafeName(groupId) || !SafeName(memberId))
      && (r == Err(UnknownMember) <==> SafeName(groupId) && SafeName(memberId) && !known)
      && (r == Err(Internal) <==>
            SafeName(groupId) && SafeName(memberId) && known && groups[groupId].generation == MAX_GENERATION)
      && (r.Err? ==> r.error == InvalidArgument || r.error == UnknownMember || r.error == Internal)
      && (r.Err? && r.error != Internal ==> groups' == groups)
      && (r == Err(Internal) ==>
            && groupId in groups' && OthersKept(groups, groups', groupId)
            && groups'[groupId].generation == MAX_GENERATION
            && groups'[groupId].members.Keys == groups[groupId].members.Keys - {memberId}
            && forall id :: id in groups'[groupId].members ==>
                 groups'[groupId].members[id] == groups[groupId].members[id])
  {
    hide Assigned, SafeName;
  }

  lemma LeaverNamed(groups: GroupMap, groupId: bytes, memberId: bytes)
    requires Leave(groups, groupId, memberId).1.Ok?
    ensures SafeName(groupId) && SafeName(memberId) && groups[groupId].generation < MAX_GENERATION
  {
    hide Assigned, SafeName;
  }

  lemma MemberIdsSafe(g: Group, id: bytes)
    requires Sane(g) && g.generation < MAX_GENERATION && id in g.members
    ensures SafeName(id)
  {
    hide MemberId, SafeName, Balanced;
    assert Issued(id, 1, g.nextSequence);
    var k: nat :| 1 <= k < g.nextSequence && id == MemberId(k);
    MemberIdSafe(k);
  }

  lemma MemberIdSafe(k: nat)
    ensures SafeName(MemberId(k))
  {
    hide Printed;
    var id := MemberId(k);
    forall i | 0 <= i < |id| ensures NameByte(id[i]) {
      if i >= |MEMBER_PREFIX| { assert id[i] == Printed(k)[i - |MEMBER_PREFIX|]; }
    }
  }

  // ---- Joining ----

  /** The members a group has; none if there is no such group. */
  function MembersOf(groups: GroupMap, groupId: bytes): set<bytes> {
    if groupId in groups then groups[groupId].members.Keys else {}
  }

  /** The reply to an accepted JoinGroup tells the generation and the leader the group then has. The
      member it names, new if and only if the request named nobody, was heard from just now; everybody
      else stays, as they were last heard. */
  lemma JoinerComes(groups: GroupMap, q: JoinRequest, count: u32, now: int)
    requires AllSane(groups) && Join(groups, q, count, now).1.Ok?
    ensures var (groups', reply) := Join(groups, q, count, now);
      var r, before := reply.value, MembersOf(groups, q.groupId);
      && q.groupId in groups' && OthersKept(groups, groups', q.groupId)
      && var g' := groups'[q.groupId];
         && g'.topic == q.topic && g'.partitionCount == count
         && r.groupId == q.groupId && r.generation == g'.generation > 0 && r.leader == g'.leader
         && g'.members.Keys == before + {r.memberId} && g'.members[r.memberId].heard == now
         && (if q.memberId == [] then r.memberId !in before else r.memberId == q.memberId && r.memberId in before)
         && forall id :: id in before && id != r.memberId ==>
              id in g'.members && g'.members[id].heard == groups[q.groupId].members[id].heard
  {
    hide Sane, Assigned, Enrolled, MemberId, SafeName, ValidTopicName;
    var found := GroupFor(groups, q, count).value;
    FreshGroupSane(q.topic, count);
    assert Sane(found);
    if q.memberId == [] {
      JoinNewSane(found, now);
      NewcomerComes(found, now);
    } else {
      MembersMeanGeneration(found, q.memberId);
    }
  }

  lemma NewcomerComes(g: Group, now: int)
    requires Sane(g) && g.generation < MAX_GENERATION
    ensures var id, g' := MemberId(g.nextSequence), NextGeneration(Enrolled(g, now));
      && Enrolled(g, now).generation == g.generation
      && id !in g.members && g'.members.Keys == g.members.Keys + {id} && g'.members[id].heard == now
      && g'.generation == g.generation + 1 > 0 && SameSubject(g, g')
      && forall other :: other in g.members ==> g'.members[other].heard == g.members[other].heard
  {
    hide Assigned, MemberId, Balanced, Issued;
    EnrolledReady(g, now);
    var e := Enrolled(g, now);
    var next := e.(generation := g.generation + 1);
    AssignedKeeps(next);
    AssignedHeard(next);
  }

  /** Whoever has just joined can fetch a share of the topic it joined for, in the generation it was
      told, at once. */
  lemma JoinThenSync(groups: GroupMap, q: JoinRequest, count: u32, now: int, later: int)
    requires AllSane(groups) && Join(groups, q, count, now).1.Ok?
    ensures var (groups', reply) := Join(groups, q, count, now);
      var s := Sync(groups', q.groupId, reply.value.memberId, reply.value.generation, later).1;
      && s.Ok? && s.value.groupId == q.groupId && s.value.memberId == reply.value.memberId
      && s.value.generation == reply.value.generation
      && (reply.value.generation < MAX_GENERATION ==> s.value.assignment.topic == q.topic)
      && Beat(groups', q.groupId, reply.value.memberId, reply.value.generation, later).1.Ok?
  {
    hide Join, SafeName, Regular, Issued;
    JoinerComes(groups, q, count, now);
    JoinerNamed(groups, q, count, now);
    JoinKeepsSane(groups, q, count, now);
    var (groups', reply) := Join(groups, q, count, now);
    SaneAt(groups', q.groupId);
    if reply.value.generation < MAX_GENERATION {
      ShareOf(groups'[q.groupId], reply.value.memberId);
    }
  }

  lemma JoinerNamed(groups: GroupMap, q: JoinRequest, count: u32, now: int)
    requires Join(groups, q, count, now).1.Ok?
    ensures SafeName(q.groupId) && SafeName(Join(groups, q, count, now).1.value.memberId)
  {
    hide Assigned, Enrolled, MemberId, SafeName, ValidTopicName;
    MemberIdSafe(GroupFor(groups, q, count).value.nextSequence);
  }

  lemma ShareOf(g: Group, id: bytes)
    requires Regular(g) && id in g.members
    ensures g.members[id].assignment.topic == g.topic
  {
    hide Sorted, Rank, Block, Issued;
  }

  /** A join is refused in three ways: as invalid, for a request that is not well formed or for a group
      that is about something else; as unknown, for a member id the group does not have; and as an
      internal error, for a newcomer at the last generation. */
  lemma JoinRefusedIff(groups: GroupMap, q: JoinRequest, count: u32, now: int)
    requires AllSane(groups)
    ensures var r := Join(groups, q, count, now).1;
      var compatible :=
        && SafeName(q.groupId) && (q.memberId != [] ==> SafeName(q.memberId)) && SafeName(OriginalOf(q.topic))
        && count > 0
        && (q.groupId in groups ==> groups[q.groupId].topic == q.topic && groups[q.groupId].partitionCount == count);
      && (r == Err(InvalidArgument) <==> !compatible)
      && (r == Err(UnknownMember) <==>
            compatible && q.memberId != [] && q.memberId !in MembersOf(groups, q.groupId))
      && (r == Err(Internal) <==>
            && compatible && q.memberId == [] && q.groupId in groups
            && groups[q.groupId].generation == MAX_GENERATION)
      && (r.Err? ==> r.error == InvalidArgument || r.error == UnknownMember || r.error == Internal)
  {
    hide Sane, NextGeneration, MemberId, SafeName, OriginalOf;
    if q.groupId in groups && q.memberId in groups[q.groupId].members {
      MembersMeanGeneration(groups[q.groupId], q.memberId);
    }
  }

  // ---- Signs of life ----

  /** SyncGroup and Heartbeat accept exactly the members of the current generation, refuse malformed names
      as invalid, whoever is not a member as unknown, and every other generation as illegal. Either is a
      sign of life of the one who asks, and changes nothing else about anyone. */
  lemma SignOfLife(groups: GroupMap, groupId: bytes, memberId: bytes, generation: i32, now: int)
    ensures var (groups', r) := Sync(groups, groupId, memberId, generation, now);
      && Beat(groups, groupId, memberId, generation, now).0 == groups'
      && (r.Ok? <==> Beat(groups, groupId, memberId, generation, now).1.Ok?)
      && (r.Ok? <==>
            && SafeName(groupId) && SafeName(memberId) && generation > 0
            && groupId in groups && memberId in groups[groupId].members && groups[groupId].generation == generation)
      && (r.Err? ==> groups' == groups && Beat(groups, groupId, memberId, generation, now).1 == Err(r.error))
      && (r == Err(InvalidArgument) <==> !SafeName(groupId) || !SafeName(memberId))
      && (r == Err(UnknownMember) <==>
            SafeName(groupId) && SafeName(memberId) && generation > 0 && memberId !in MembersOf(groups, groupId))
      && (r.Err? ==> r.error == InvalidArgument || r.error == UnknownMember || r.error == IllegalGeneration)
      && (r.Ok? ==>
            && groupId in groups' && OthersKept(groups, groups', groupId)
            && SameMembership(groups[groupId], groups'[groupId]) && SameSubject(groups[groupId], groups'[groupId])
            && groups'[groupId].generation == generation
            && groups'[groupId].members[memberId].heard == now
            && forall id :: id in groups[groupId].members && id != memberId ==>
                 groups'[groupId].members[id] == groups[groupId].members[id])
  {
    hide SafeName;
  }

  // ---- Expiry ----

  /** A scan keeps, of every group, exactly the members heard in time, as they were last heard; it
      removes a group if and only if it had members and none of them was heard in time, and leaves one
      alone if all were. */
  lemma ScanKeepsHeard(groups: GroupMap, now: int, timeout: int, id: bytes)
    requires id in groups
    ensures var (g, scanned) := (groups[id], Expire(groups, now, timeout));
      && (id !in scanned <==> g.members != map[] && forall m :: m in g.members ==> now - g.members[m].heard > timeout)
      && (id in scanned ==>
            && (forall m :: m in scanned[id].members <==> m in g.members && now - g.members[m].heard <= timeout)
            && HeardAsBefore(g, scanned[id]) && SameSubject(g, scanned[id])
            && (scanned[id].members.Keys == g.members.Keys ==> scanned[id] == g))
  {
    hide Assigned, HeardAsBefore;
    var g, alive := groups[id], Alive(groups[id].members, now, timeout);
    assert alive.Keys == g.members.Keys ==> alive == g.members;
    var next := g.(members := alive, generation := if g.generation < MAX_GENERATION then g.generation + 1
                                                   else g.generation);
    AssignedKeeps(next);
    AssignedHeard(next);
    HeardThrough(g, next, Assigned(next));
    HeardSelf(g);
  }

  lemma HeardSelf(g: Group)
    ensures HeardAsBefore(g, g)
  {
  }

  /** A scan adds no group. */
  lemma ScanAddsNone(groups: GroupMap, now: int, timeout: int)
    ensures Expire(groups, now, timeout).Keys <= groups.Keys
  {
    hide Scanned;
  }
}
