/** Groups and their members; deleting a group deletes its members. */
module Group {
  import opened Common
  import opened Sorting
  import opened SyncDiff
  import opened ScopeSync
  import HashMaps

  datatype GroupInfo = GroupInfo(
    groupId: string, groupName: string, faceUrl: string, ownerUserId: string,
    memberCount: u32, updatedAt: int)

  datatype GroupMemberInfo = GroupMemberInfo(
    groupId: string, userId: string, nickname: string, faceUrl: string,
    roleLevel: int, joinTime: int)

  function GroupKey(g: GroupInfo): string {
    g.groupId
  }

  function MemberKey(member: GroupMemberInfo): (string, string) {
    (member.groupId, member.userId)
  }

  function MemberUserId(member: GroupMemberInfo): string {
    member.userId
  }

  predicate Everywhere(id: string) {
    true
  }

  predicate GroupLe(left: GroupInfo, right: GroupInfo) {
    StringLe(left.groupId, right.groupId)
  }

  predicate MemberLe(left: GroupMemberInfo, right: GroupMemberInfo) {
    StringLe(left.userId, right.userId)
  }

  /** The members left after some groups are deleted. */
  function WithoutGroups(members: map<(string, string), GroupMemberInfo>, gone: set<string>)
    : map<(string, string), GroupMemberInfo>
  {
    map k | k in members && k.0 !in gone :: members[k]
  }

  /** The groups a plan deletes. */
  function DeletedGroups(actions: seq<SyncAction<GroupInfo>>): set<string> {
    if actions == [] then {} else
    var n := |actions| - 1;
    DeletedGroups(actions[..n]) + (if actions[n].Delete? then {actions[n].local.groupId} else {})
  }

  lemma {:induction false} DeletedGroupsAppend(a: seq<SyncAction<GroupInfo>>, b: seq<SyncAction<GroupInfo>>)
    ensures DeletedGroups(a + b) == DeletedGroups(a) + DeletedGroups(b)
  {
    if b == [] {
      assert a + b == a;
    } else {
      var n := |b| - 1;
      DeletedGroupsAppend(a, b[..n]);
      assert (a + b)[..|a + b| - 1] == a + b[..n];
    }
  }

  lemma {:induction false} NothingDeleted(actions: seq<SyncAction<GroupInfo>>)
    requires forall a :: a in actions ==> !a.Delete?
    ensures DeletedGroups(actions) == {}
  {
    if actions != [] {
      var n := |actions| - 1;
      assert actions == actions[..n] + [actions[n]];
      NothingDeleted(actions[..n]);
    }
  }

  lemma ServerActionsDeleteNoGroup(server: seq<GroupInfo>, local: seq<GroupInfo>)
    ensures DeletedGroups(ServerActions(server, local, GroupKey, SameValue<GroupInfo>, DEFAULT_OPTIONS)) == {}
  {
    ServerActionsNeverDelete(server, local, GroupKey, SameValue<GroupInfo>, DEFAULT_OPTIONS);
    NothingDeleted(ServerActions(server, local, GroupKey, SameValue<GroupInfo>, DEFAULT_OPTIONS));
  }

  lemma {:induction false} DeleteActionsDeleteGroups(local: seq<GroupInfo>, kept: set<string>)
    ensures DeletedGroups(DeleteActions(local, GroupKey, kept)) == Deleted(GroupKey, local, GroupKey, kept)
  {
    if local != [] {
      var n := |local| - 1;
      DeleteActionsDeleteGroups(local[..n], kept);
      DeletedSnoc(GroupKey, local, GroupKey, kept);
      var before := DeleteActions(local[..n], GroupKey, kept);
      if local[n].groupId in kept {
        assert before + [] == before;
      } else {
        assert (before + [Delete(local[n])])[..|before|] == before;
      }
    }
  }

  /** A plan for all groups deletes the groups the server no longer lists. */
  lemma PlanDeletesGroups(groups: map<string, GroupInfo>, server: seq<GroupInfo>, local: seq<GroupInfo>)
    requires Syncable(groups, GroupKey, Everywhere, server, local, GroupKey)
    ensures DeletedGroups(Plan(server, local, GroupKey, SameValue<GroupInfo>, DEFAULT_OPTIONS))
         == groups.Keys - KeysOf(server, GroupKey)
  {
    var first := ServerActions(server, local, GroupKey, SameValue<GroupInfo>, DEFAULT_OPTIONS);
    var last := DeleteActions(local, GroupKey, KeysOf(server, GroupKey));
    DeletedGroupsAppend(first, last);
    ServerActionsDeleteNoGroup(server, local);
    DeleteActionsDeleteGroups(local, KeysOf(server, GroupKey));
    DeletedIsScopeRest(groups, GroupKey, Everywhere, server, local, GroupKey);
    assert Inside(groups, Everywhere) == groups;
  }

  method CheckGroups(server: seq<GroupInfo>) returns (acceptable: bool)
    ensures acceptable <==> forall i :: 0 <= i < |server| ==> server[i].groupId != ""
  {
    for i := 0 to |server|
      invariant forall j :: 0 <= j < i ==> server[j].groupId != ""
    {
      if server[i].groupId == "" {
        return false;
      }
    }
    return true;
  }

  predicate MembersAcceptable(groupId: string, server: seq<GroupMemberInfo>) {
    groupId != "" && forall i :: 0 <= i < |server| ==> server[i].groupId == groupId && server[i].userId != ""
  }

  method CheckMembers(groupId: string, server: seq<GroupMemberInfo>) returns (acceptable: bool)
    ensures acceptable == MembersAcceptable(groupId, server)
  {
    if groupId == "" {
      return false;
    }
    for i := 0 to |server|
      invariant forall j :: 0 <= j < i ==> server[j].groupId == groupId && server[j].userId != ""
    {
      if server[i].groupId == "" || server[i].userId == "" || server[i].groupId != groupId {
        return false;
      }
    }
    return true;
  }

  class GroupService {
    var groups: map<string, GroupInfo>
    var members: map<(string, string), GroupMemberInfo>

    ghost predicate Valid()
      reads this
    {
      Keyed(groups, GroupKey) && "" !in groups && Keyed(members, MemberKey)
    }

    constructor ()
      ensures Valid() && groups == map[] && members == map[]
    {
      groups := map[];
      members := map[];
    }

    method UpsertGroup(g: GroupInfo) returns (r: Result<Unit>)
      requires Valid()
      modifies this
      ensures Valid() && members == old(members)
      ensures r.Ok? <==> g.groupId != ""
      ensures groups == if r.Ok? then old(groups)[g.groupId := g] else old(groups)
    {
      if g.groupId == "" {
        return Err(Args);
      }
      groups := groups[g.groupId := g];
      return Ok(Unit);
    }

    method UpsertMember(member: GroupMemberInfo) returns (r: Result<Unit>)
      requires Valid()
      modifies this
      ensures Valid() && groups == old(groups)
      ensures r.Ok? <==> member.groupId != "" && member.userId != ""
      ensures members == if r.Ok? then old(members)[MemberKey(member) := member] else old(members)
    {
      if member.groupId == "" || member.userId == "" {
        return Err(Args);
      }
      members := members[MemberKey(member) := member];
      return Ok(Unit);
    }

    method DeleteGroup(groupId: string) returns (r: Result<Unit>)
      modifies this
      ensures r.Ok? <==> groupId != ""
      ensures groups == if r.Ok? then old(groups) - {groupId} else old(groups)
      ensures members == if r.Ok? then WithoutGroups(old(members), {groupId}) else old(members)
    {
      if groupId == "" {
        return Err(Args);
      }
      groups := groups - {groupId};
      members := map k | k in members && k.0 != groupId :: members[k];
      return Ok(Unit);
    }

    method JoinedGroups() returns (listed: seq<GroupInfo>)
      requires Valid()
      ensures Enumerates(listed, groups, GroupKey, Everywhere) && Sorted(GroupLe, listed)
      ensures forall g :: g in listed <==> Lookup(groups, g.groupId) == Some(g)
      ensures forall i, j :: 0 <= i < j < |listed| ==> StringLe(listed[i].groupId, listed[j].groupId)
    {
      var found := HashMaps.CollectWhere(groups, GroupKey, Everywhere, (g: GroupInfo) => true);
      GroupOrder();
      SortBySorted(found, GroupLe);
      HashMaps.EnumeratesRearranged(found, SortBy(found, GroupLe), groups, GroupKey, Everywhere);
      listed := SortBy(found, GroupLe);
    }

    /** Carries out a plan for the groups.  A deletion never fails: stored groups have an id. */
    method ApplyGroups(actions: seq<SyncAction<GroupInfo>>) returns (r: Result<DomainSyncSummary>)
      requires forall i :: 0 <= i < |actions| && actions[i].Delete? ==> actions[i].local.groupId != ""
      modifies this
      ensures groups == ApplyAll(old(groups), GroupKey, actions)
      ensures members == WithoutGroups(old(members), DeletedGroups(actions))
      ensures r == Ok(Summarize(actions))
    {
      var summary := EMPTY_SUMMARY;
      for i := 0 to |actions|
        invariant groups == ApplyAll(old(groups), GroupKey, actions[..i])
        invariant members == WithoutGroups(old(members), DeletedGroups(actions[..i]))
        invariant summary == Summarize(actions[..i])
      {
        TakeSnoc(actions, i);
        ApplyOneMore(old(groups), GroupKey, actions, i);
        summary := Record(summary, actions[i]);
        match actions[i] {
          case Insert(item) => groups := groups[item.groupId := item];
          case Update(item, _) => groups := groups[item.groupId := item];
          case Delete(item) =>
            var deleted := DeleteGroup(item.groupId);
          case Unchanged(_, _) =>
        }
      }
      assert actions[..|actions|] == actions;
      return Ok(summary);
    }

    method SyncGroups(server: seq<GroupInfo>) returns (r: Result<DomainSyncSummary>)
      requires Valid()
      modifies this
      ensures Valid()
      ensures r.Ok? <==> forall i :: 0 <= i < |server| ==> server[i].groupId != ""
      ensures r.Err? ==> groups == old(groups) && members == old(members)
      ensures r.Ok? ==>
        && groups == SyncedMap(old(groups), GroupKey, Everywhere, server, DEFAULT_OPTIONS)
        && members == WithoutGroups(old(members), old(groups).Keys - KeysOf(server, GroupKey))
        && r.value == SyncSummary(old(groups), GroupKey, Everywhere, server, DEFAULT_OPTIONS)
    {
      var acceptable := CheckGroups(server);
      if !acceptable {
        return Err(Args);
      }
      var local := JoinedGroups();
      var actions := DiffBy(server, local, GroupKey, SameValue<GroupInfo>, DEFAULT_OPTIONS);
      PlanIsSync(groups, GroupKey, Everywhere, server, local, GroupKey, DEFAULT_OPTIONS);
      PlanDeletesGroups(groups, server, local);
      DeletedAreStored(actions, server, local);
      GroupsKeepIds(groups, server);
      r := ApplyGroups(actions);
    }

    method GroupMembers(groupId: string) returns (r: Result<seq<GroupMemberInfo>>)
      requires Valid()
      ensures r.Ok? <==> groupId != ""
      ensures r.Ok? ==> Enumerates(r.value, members, MemberKey, KeysUnder(groupId)) && Sorted(MemberLe, r.value)
      ensures r.Ok? ==> forall m :: m in r.value <==>
        m.groupId == groupId && Lookup(members, (m.groupId, m.userId)) == Some(m)
      ensures r.Ok? ==> forall i, j :: 0 <= i < j < |r.value| ==> StringLe(r.value[i].userId, r.value[j].userId)
    {
      if groupId == "" {
        return Err(Args);
      }
      var found := HashMaps.CollectWhere(members, MemberKey, KeysUnder(groupId), (m: GroupMemberInfo) => m.groupId == groupId);
      MemberOrder();
      SortBySorted(found, MemberLe);
      HashMaps.EnumeratesRearranged(found, SortBy(found, MemberLe), members, MemberKey, KeysUnder(groupId));
      return Ok(SortBy(found, MemberLe));
    }

    method ApplyMembers(actions: seq<SyncAction<GroupMemberInfo>>) returns (summary: DomainSyncSummary)
      modifies this
      ensures members == ApplyAll(old(members), MemberKey, actions) && groups == old(groups)
      ensures summary == Summarize(actions)
    {
      summary := EMPTY_SUMMARY;
      for i := 0 to |actions|
        invariant groups == old(groups)
        invariant members == ApplyAll(old(members), MemberKey, actions[..i])
        invariant summary == Summarize(actions[..i])
      {
        ApplyOneMore(old(members), MemberKey, actions, i);
        summary := Record(summary, actions[i]);
        match actions[i] {
          case Insert(item) => members := members[MemberKey(item) := item];
          case Update(item, _) => members := members[MemberKey(item) := item];
          case Delete(item) => members := members - {MemberKey(item)};
          case Unchanged(_, _) =>
        }
      }
      assert actions[..|actions|] == actions;
    }

    method SyncGroupMembers(groupId: string, server: seq<GroupMemberInfo>) returns (r: Result<DomainSyncSummary>)
      requires Valid()
      modifies this
      ensures Valid() && groups == old(groups)
      ensures r.Ok? <==> groupId != "" && forall m :: m in server ==> m.groupId == groupId && m.userId != ""
      ensures r.Err? ==> members == old(members)
      ensures r.Ok? ==>
        && members == SyncedMap(old(members), MemberKey, KeysUnder(groupId), server, DEFAULT_OPTIONS)
        && r.value == SyncSummary(old(members), MemberKey, KeysUnder(groupId), server, DEFAULT_OPTIONS)
    {
      var acceptable := CheckMembers(groupId, server);
      if !acceptable {
        return Err(Args);
      }
      var local :- assert GroupMembers(groupId);
      var actions := DiffBy(server, local, MemberUserId, SameValue<GroupMemberInfo>, DEFAULT_OPTIONS);
      PlanIsSync(members, MemberKey, KeysUnder(groupId), server, local, MemberUserId, DEFAULT_OPTIONS);
      var summary := ApplyMembers(actions);
      return Ok(summary);
    }
  }

  lemma {:induction false} DeletedAreLocal(local: seq<GroupInfo>, kept: set<string>)
    ensures forall a :: a in DeleteActions(local, GroupKey, kept) ==> a.Delete? && a.local in local
  {
    if local != [] {
      var n := |local| - 1;
      DeletedAreLocal(local[..n], kept);
      assert local == local[..n] + [local[n]];
    }
  }

  lemma DeletedAreStored(actions: seq<SyncAction<GroupInfo>>, server: seq<GroupInfo>, local: seq<GroupInfo>)
    requires actions == Plan(server, local, GroupKey, SameValue<GroupInfo>, DEFAULT_OPTIONS)
    ensures forall i :: 0 <= i < |actions| && actions[i].Delete? ==> actions[i].local in local
  {
    ServerActionsNeverDelete(server, local, GroupKey, SameValue<GroupInfo>, DEFAULT_OPTIONS);
    DeletedAreLocal(local, KeysOf(server, GroupKey));
    forall i | 0 <= i < |actions| && actions[i].Delete? ensures actions[i].local in local {
      assert actions[i] in actions;
    }
  }

  lemma GroupsKeepIds(groups: map<string, GroupInfo>, server: seq<GroupInfo>)
    requires "" !in groups && forall i :: 0 <= i < |server| ==> server[i].groupId != ""
    ensures "" !in SyncedMap(groups, GroupKey, Everywhere, server, DEFAULT_OPTIONS)
  {
    SyncedMapEntry(groups, GroupKey, Everywhere, server, DEFAULT_OPTIONS, "");
    LastDifferingIsListed(server, GroupKey, "", None);
  }

  lemma GroupOrder()
    ensures TotalPreorder(GroupLe)
  {
    forall a, b ensures GroupLe(a, b) || GroupLe(b, a) {
      StringLeTotal(a.groupId, b.groupId);
    }
    forall a, b, c | GroupLe(a, b) && GroupLe(b, c) ensures GroupLe(a, c) {
      StringLeTransitive(a.groupId, b.groupId, c.groupId);
    }
  }

  lemma MemberOrder()
    ensures TotalPreorder(MemberLe)
  {
    forall a, b ensures MemberLe(a, b) || MemberLe(b, a) {
      StringLeTotal(a.userId, b.userId);
    }
    forall a, b, c | MemberLe(a, b) && MemberLe(b, c) ensures MemberLe(a, c) {
      StringLeTransitive(a.userId, b.userId, c.userId);
    }
  }

  /** After `SyncGroups` no member belongs to a group that was known before and is not known
      now, and every other member is as it was. */
  lemma NoOrphansOfDeletedGroups(groups: map<string, GroupInfo>, members: map<(string, string), GroupMemberInfo>,
                                 server: seq<GroupInfo>)
    ensures var after := SyncedMap(groups, GroupKey, Everywhere, server, DEFAULT_OPTIONS);
      var left := WithoutGroups(members, groups.Keys - KeysOf(server, GroupKey));
      && (forall k :: k in left ==> k.0 in groups ==> k.0 in after)
      && (forall k :: k in members && (k.0 in after || k.0 !in groups) ==> k in left && left[k] == members[k])
  {
    forall id: string
      ensures id in SyncedMap(groups, GroupKey, Everywhere, server, DEFAULT_OPTIONS) <==> id in KeysOf(server, GroupKey)
    {
      SyncedMapEntry(groups, GroupKey, Everywhere, server, DEFAULT_OPTIONS, id);
      LastDifferingIsListed(server, GroupKey, id, Lookup(groups, id));
      if id in KeysOf(server, GroupKey) {
        var i :| 0 <= i < |server| && GroupKey(server[i]) == id;
        assert server[i] in server;
      }
    }
  }
}
