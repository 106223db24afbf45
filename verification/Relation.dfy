/** Friends and blocked users of each owner. */
module Relation {
  import opened Common
  import opened Sorting
  import opened SyncDiff
  import opened ScopeSync
  import HashMaps

  datatype FriendInfo = FriendInfo(
    ownerUserId: string, friendUserId: string, nickname: string, remark: string,
    faceUrl: string, updatedAt: int)

  datatype BlacklistInfo = BlacklistInfo(
    ownerUserId: string, blockedUserId: string, nickname: string, faceUrl: string, updatedAt: int)

  function FriendKey(friend: FriendInfo): (string, string) {
    (friend.ownerUserId, friend.friendUserId)
  }

  function FriendUserId(friend: FriendInfo): string {
    friend.friendUserId
  }

  function BlackKey(black: BlacklistInfo): (string, string) {
    (black.ownerUserId, black.blockedUserId)
  }

  function BlockedUserId(black: BlacklistInfo): string {
    black.blockedUserId
  }

  predicate FriendLe(left: FriendInfo, right: FriendInfo) {
    StringLe(left.friendUserId, right.friendUserId)
  }

  predicate BlackLe(left: BlacklistInfo, right: BlacklistInfo) {
    StringLe(left.blockedUserId, right.blockedUserId)
  }

  predicate FriendsAcceptable(owner: string, server: seq<FriendInfo>) {
    owner != "" && forall i :: 0 <= i < |server| ==> server[i].ownerUserId == owner && server[i].friendUserId != ""
  }

  predicate BlacklistAcceptable(owner: string, server: seq<BlacklistInfo>) {
    owner != "" && forall i :: 0 <= i < |server| ==> server[i].ownerUserId == owner && server[i].blockedUserId != ""
  }

  method CheckFriends(owner: string, server: seq<FriendInfo>) returns (acceptable: bool)
    ensures acceptable == FriendsAcceptable(owner, server)
  {
    if owner == "" {
      return false;
    }
    for i := 0 to |server|
      invariant forall j :: 0 <= j < i ==> server[j].ownerUserId == owner && server[j].friendUserId != ""
    {
      if server[i].ownerUserId != owner || server[i].friendUserId == "" {
        return false;
      }
    }
    return true;
  }

  method CheckBlacklist(owner: string, server: seq<BlacklistInfo>) returns (acceptable: bool)
    ensures acceptable == BlacklistAcceptable(owner, server)
  {
    if owner == "" {
      return false;
    }
    for i := 0 to |server|
      invariant forall j :: 0 <= j < i ==> server[j].ownerUserId == owner && server[j].blockedUserId != ""
    {
      if server[i].ownerUserId != owner || server[i].blockedUserId == "" {
        return false;
      }
    }
    return true;
  }

  class RelationService {
    var friends: map<(string, string), FriendInfo>
    var blacklist: map<(string, string), BlacklistInfo>

    ghost predicate Valid()
      reads this
    {
      Keyed(friends, FriendKey) && Keyed(blacklist, BlackKey)
    }

    constructor ()
      ensures Valid() && friends == map[] && blacklist == map[]
    {
      friends := map[];
      blacklist := map[];
    }

    method UpsertFriend(friend: FriendInfo) returns (r: Result<Unit>)
      requires Valid()
      modifies this
      ensures Valid() && blacklist == old(blacklist)
      ensures r.Ok? <==> friend.ownerUserId != "" && friend.friendUserId != ""
      ensures friends == if r.Ok? then old(friends)[FriendKey(friend) := friend] else old(friends)
    {
      if friend.ownerUserId == "" || friend.friendUserId == "" {
        return Err(Args);
      }
      friends := friends[FriendKey(friend) := friend];
      return Ok(Unit);
    }

    method DeleteFriend(owner: string, friendUserId: string) returns (r: Result<Unit>)
      requires Valid()
      modifies this
      ensures Valid() && blacklist == old(blacklist)
      ensures r.Ok? <==> owner != "" && friendUserId != ""
      ensures friends == if r.Ok? then old(friends) - {(owner, friendUserId)} else old(friends)
    {
      if owner == "" || friendUserId == "" {
        return Err(Args);
      }
      friends := friends - {(owner, friendUserId)};
      return Ok(Unit);
    }

    /** The owner's friends, by friend id. */
    method AllFriends(owner: string) returns (r: Result<seq<FriendInfo>>)
      requires Valid()
      ensures r.Ok? <==> owner != ""
      ensures r.Ok? ==> Enumerates(r.value, friends, FriendKey, KeysUnder(owner)) && Sorted(FriendLe, r.value)
      ensures r.Ok? ==> forall f :: f in r.value <==>
        f.ownerUserId == owner && Lookup(friends, (f.ownerUserId, f.friendUserId)) == Some(f)
      ensures r.Ok? ==> forall i, j :: 0 <= i < j < |r.value| ==> StringLe(r.value[i].friendUserId, r.value[j].friendUserId)
    {
      if owner == "" {
        return Err(Args);
      }
      var found := HashMaps.CollectWhere(friends, FriendKey, KeysUnder(owner), (f: FriendInfo) => f.ownerUserId == owner);
      FriendOrder();
      SortBySorted(found, FriendLe);
      HashMaps.EnumeratesRearranged(found, SortBy(found, FriendLe), friends, FriendKey, KeysUnder(owner));
      return Ok(SortBy(found, FriendLe));
    }

    /** Carries out a plan, counting its actions. */
    method ApplyFriends(actions: seq<SyncAction<FriendInfo>>) returns (summary: DomainSyncSummary)
      modifies this
      ensures friends == ApplyAll(old(friends), FriendKey, actions) && blacklist == old(blacklist)
      ensures summary == Summarize(actions)
    {
      summary := EMPTY_SUMMARY;
      for i := 0 to |actions|
        invariant blacklist == old(blacklist)
        invariant friends == ApplyAll(old(friends), FriendKey, actions[..i])
        invariant summary == Summarize(actions[..i])
      {
        ApplyOneMore(old(friends), FriendKey, actions, i);
        summary := Record(summary, actions[i]);
        match actions[i] {
          case Insert(item) => friends := friends[FriendKey(item) := item];
          case Update(item, _) => friends := friends[FriendKey(item) := item];
          case Delete(item) => friends := friends - {FriendKey(item)};
          case Unchanged(_, _) =>
        }
      }
      assert actions[..|actions|] == actions;
    }

    method SyncFriends(owner: string, server: seq<FriendInfo>) returns (r: Result<DomainSyncSummary>)
      requires Valid()
      modifies this
      ensures Valid() && blacklist == old(blacklist)
      ensures r.Ok? <==> owner != "" && forall f :: f in server ==> f.ownerUserId == owner && f.friendUserId != ""
      ensures r.Err? ==> friends == old(friends)
      ensures r.Ok? ==>
        && friends == SyncedMap(old(friends), FriendKey, KeysUnder(owner), server, DEFAULT_OPTIONS)
        && r.value == SyncSummary(old(friends), FriendKey, KeysUnder(owner), server, DEFAULT_OPTIONS)
    {
      var acceptable := CheckFriends(owner, server);
      if !acceptable {
        return Err(Args);
      }

      var local :- assert AllFriends(owner);
      var actions := DiffBy(server, local, FriendUserId, SameValue<FriendInfo>, DEFAULT_OPTIONS);
      var summary := ApplyFriends(actions);
      PlanIsSync(old(friends), FriendKey, KeysUnder(owner), server, local, FriendUserId, DEFAULT_OPTIONS);
      return Ok(summary);
    }

    /** The owner's blocked users, by blocked id. */
    method AllBlacklist(owner: string) returns (r: Result<seq<BlacklistInfo>>)
      requires Valid()
      ensures r.Ok? <==> owner != ""
      ensures r.Ok? ==> Enumerates(r.value, blacklist, BlackKey, KeysUnder(owner)) && Sorted(BlackLe, r.value)
      ensures r.Ok? ==> forall b :: b in r.value <==>
        b.ownerUserId == owner && Lookup(blacklist, (b.ownerUserId, b.blockedUserId)) == Some(b)
      ensures r.Ok? ==> forall i, j :: 0 <= i < j < |r.value| ==> StringLe(r.value[i].blockedUserId, r.value[j].blockedUserId)
    {
      if owner == "" {
        return Err(Args);
      }
      var found := HashMaps.CollectWhere(blacklist, BlackKey, KeysUnder(owner), (b: BlacklistInfo) => b.ownerUserId == owner);
      BlackOrder();
      SortBySorted(found, BlackLe);
      HashMaps.EnumeratesRearranged(found, SortBy(found, BlackLe), blacklist, BlackKey, KeysUnder(owner));
      return Ok(SortBy(found, BlackLe));
    }

    /** Carries out a plan, counting its actions. */
    method ApplyBlacklist(actions: seq<SyncAction<BlacklistInfo>>) returns (summary: DomainSyncSummary)
      modifies this
      ensures blacklist == ApplyAll(old(blacklist), BlackKey, actions) && friends == old(friends)
      ensures summary == Summarize(actions)
    {
      summary := EMPTY_SUMMARY;
      for i := 0 to |actions|
        invariant friends == old(friends)
        invariant blacklist == ApplyAll(old(blacklist), BlackKey, actions[..i])
        invariant summary == Summarize(actions[..i])
      {
        ApplyOneMore(old(blacklist), BlackKey, actions, i);
        summary := Record(summary, actions[i]);
        match actions[i] {
          case Insert(item) => blacklist := blacklist[BlackKey(item) := item];
          case Update(item, _) => blacklist := blacklist[BlackKey(item) := item];
          case Delete(item) => blacklist := blacklist - {BlackKey(item)};
          case Unchanged(_, _) =>
        }
      }
      assert actions[..|actions|] == actions;
    }

    method SyncBlacklist(owner: string, server: seq<BlacklistInfo>) returns (r: Result<DomainSyncSummary>)
      requires Valid()
      modifies this
      ensures Valid() && friends == old(friends)
      ensures r.Ok? <==> owner != "" && forall b :: b in server ==> b.ownerUserId == owner && b.blockedUserId != ""
      ensures r.Err? ==> blacklist == old(blacklist)
      ensures r.Ok? ==>
        && blacklist == SyncedMap(old(blacklist), BlackKey, KeysUnder(owner), server, DEFAULT_OPTIONS)
        && r.value == SyncSummary(old(blacklist), BlackKey, KeysUnder(owner), server, DEFAULT_OPTIONS)
    {
      var acceptable := CheckBlacklist(owner, server);
      if !acceptable {
        return Err(Args);
      }

      var local :- assert AllBlacklist(owner);
      var actions := DiffBy(server, local, BlockedUserId, SameValue<BlacklistInfo>, DEFAULT_OPTIONS);
      var summary := ApplyBlacklist(actions);
      PlanIsSync(old(blacklist), BlackKey, KeysUnder(owner), server, local, BlockedUserId, DEFAULT_OPTIONS);
      return Ok(summary);
    }
  }

  lemma FriendOrder()
    ensures TotalPreorder(FriendLe)
  {
    forall a, b ensures FriendLe(a, b) || FriendLe(b, a) {
      StringLeTotal(a.friendUserId, b.friendUserId);
    }
    forall a, b, c | FriendLe(a, b) && FriendLe(b, c) ensures FriendLe(a, c) {
      StringLeTransitive(a.friendUserId, b.friendUserId, c.friendUserId);
    }
  }

  lemma BlackOrder()
    ensures TotalPreorder(BlackLe)
  {
    forall a, b ensures BlackLe(a, b) || BlackLe(b, a) {
      StringLeTotal(a.blockedUserId, b.blockedUserId);
    }
    forall a, b, c | BlackLe(a, b) && BlackLe(b, c) ensures BlackLe(a, c) {
      StringLeTransitive(a.blockedUserId, b.blockedUserId, c.blockedUserId);
    }
  }

  /** Synchronising and then listing gives the server's friends in order, and no other
      owner's friend is touched. */
  method SyncThenList(service: RelationService, owner: string, server: seq<FriendInfo>)
    returns (listed: seq<FriendInfo>)
    requires service.Valid() && FriendsAcceptable(owner, server)
    requires DistinctKeys(server, FriendKey)
    modifies service
    ensures service.Valid()
    ensures listed == SortBy(server, FriendLe)
    ensures forall k: (string, string) :: k.0 != owner ==> Lookup(service.friends, k) == old(Lookup(service.friends, k))
  {
    ghost var before := service.friends;
    var _ :- assert service.SyncFriends(owner, server);
    listed :- assert service.AllFriends(owner);
    ScopeListsServer(before, FriendKey, KeysUnder(owner), server, listed);
    FriendOrder();
    SortBySorted(server, FriendLe);
    SameMembers(listed, server);
    forall a, b | a in listed && b in listed && FriendLe(a, b) && FriendLe(b, a) ensures a == b {
      StringLeAntisymmetric(a.friendUserId, b.friendUserId);
      assert FriendKey(a) == FriendKey(b);
    }
    SortedUnique(listed, SortBy(server, FriendLe), FriendLe);
    forall k: (string, string) | k.0 != owner
      ensures Lookup(service.friends, k) == Lookup(before, k)
    {
      SyncedMapEntry(before, FriendKey, KeysUnder(owner), server, DEFAULT_OPTIONS, k);
      LastDifferingIsListed(server, FriendKey, k, Lookup(before, k));
    }
  }
}
