/** Replicas that follow a server through version deltas.

    The server keeps, for each version id, a history of snapshots.  Deltas between
    consecutive snapshots may reach a replica late, twice, out of order or not at all, and
    may belong to another version id.  When the decision is a full resynchronisation the
    environment may hand over any snapshot of the server, or none. */
module Replica {
  import opened Common
  import ScopeSync
  import opened VersionSync

  type Snapshot<T> = map<string, T>
  type World<T> = map<string, seq<Snapshot<T>>>

  datatype Replica<+T> = Replica(state: VersionState, items: seq<T>)

  datatype Event<+T> = Event(delta: VersionDelta<T>, refreshed: Option<seq<string>>,
                             fetched: Option<Replica<T>>)

  ghost predicate WorldOk<T>(world: World<T>, key: T -> string) {
    forall v, i, id :: v in world && 0 <= i < |world[v]| && id in world[v][i] ==> key(world[v][i][id]) == id
  }

  /** The replica holds the snapshot of its own version: each id once, and every item. */
  ghost predicate Synced<T>(world: World<T>, r: Replica<T>) {
    && r.state.versionId in world
    && r.state.version as int < |world[r.state.versionId]|
    && var snapshot := world[r.state.versionId][r.state.version as int];
       && NoDup(r.state.uidList)
       && Elems(r.state.uidList) == snapshot.Keys
       && r.items == Collect(r.state.uidList, snapshot)
  }

  /** The delta leads from the snapshot before its version to the snapshot of its version. */
  ghost predicate Honest<T>(world: World<T>, delta: VersionDelta<T>, key: T -> string) {
    !delta.full && delta.versionId in world && delta.version > 0 ==>
      var history := world[delta.versionId];
      && delta.version as int < |history|
      && history[delta.version as int] == Patched(history[delta.version as int - 1], delta, key)
  }

  /** A refreshed id list rearranges the merged list. */
  ghost predicate RefreshRearranges<T>(r: Replica<T>, e: Event<T>, key: T -> string) {
    e.delta.idOrderChanged && e.refreshed.Some? ==>
      multiset(e.refreshed.value) == multiset(MergedIds(r.state.uidList, e.delta, key))
  }

  function Decision<T>(r: Replica<T>, e: Event<T>, key: T -> string): VersionDecision<T> {
    VersionPlan(r.state, r.items, e.delta, key, e.refreshed)
  }

  function Deliver<T>(r: Replica<T>, e: Event<T>, key: T -> string): Replica<T> {
    match Decision(r, e, key)
    case Noop => r
    case Full => if e.fetched.Some? then e.fetched.value else r
    case Incremental(items, state) => Replica(state, items)
  }

  function Run<T>(r: Replica<T>, events: seq<Event<T>>, key: T -> string): Replica<T>
    decreases |events|
  {
    if events == [] then r else Run(Deliver(r, events[0], key), events[1..], key)
  }

  /** Every event along the run is honest. */
  ghost predicate HonestRun<T>(world: World<T>, r: Replica<T>, events: seq<Event<T>>, key: T -> string)
    decreases |events|
  {
    events != [] ==>
      && Honest(world, events[0].delta, key)
      && (events[0].fetched.Some? ==> Synced(world, events[0].fetched.value))
      && (Decision(r, events[0], key).Incremental? ==> RefreshRearranges(r, events[0], key))
      && HonestRun(world, Deliver(r, events[0], key), events[1..], key)
  }

  /** The stored items, looked up by id, are the server's snapshot, and no id occurs twice. */
  lemma SyncedIsSnapshot<T>(world: World<T>, r: Replica<T>, key: T -> string)
    requires WorldOk(world, key) && Synced(world, r)
    ensures ScopeSync.Indexed(r.items, key) == world[r.state.versionId][r.state.version as int]
    ensures |r.items| == |r.state.uidList|
    ensures forall i :: 0 <= i < |r.items| ==> key(r.items[i]) == r.state.uidList[i]
  {
    LayoutRoundTrip(r.state.uidList, world[r.state.versionId][r.state.version as int], key);
  }

  /** One incremental step raises the version by one and reaches the next snapshot iff a
      refreshed id list, when it is used, rearranges the merged list. */
  lemma IncrementalStepIff<T>(world: World<T>, r: Replica<T>, e: Event<T>, key: T -> string)
    requires WorldOk(world, key) && Synced(world, r) && Honest(world, e.delta, key)
    requires Decision(r, e, key).Incremental?
    ensures Deliver(r, e, key).state.versionId == r.state.versionId
    ensures Deliver(r, e, key).state.version as int == r.state.version as int + 1
    ensures Synced(world, Deliver(r, e, key)) <==> RefreshRearranges(r, e, key)
  {
    SyncedIsSnapshot(world, r, key);
    var history := world[r.state.versionId];
    var before, after := history[r.state.version as int], history[r.state.version as int + 1];
    var ids := MergedIds(r.state.uidList, e.delta, key);
    MergedIdsElems(r.state.uidList, before, e.delta, key);
    var next := NextIds(r.state.uidList, e.delta, key, e.refreshed);
    if RefreshRearranges(r, e, key) {
      NoDupFromMultiset(ids, next);
    }
    if NoDup(next) && Elems(next) == after.Keys {
      forall x ensures x in next <==> x in ids {
        assert x in next <==> x in Elems(next);
        assert x in ids <==> x in Elems(ids);
      }
      SameElemsSameMultiset(next, ids);
    }
  }

  lemma DeliverKeepsSynced<T>(world: World<T>, r: Replica<T>, e: Event<T>, key: T -> string)
    requires WorldOk(world, key) && Synced(world, r) && Honest(world, e.delta, key)
    requires e.fetched.Some? ==> Synced(world, e.fetched.value)
    requires Decision(r, e, key).Incremental? ==> RefreshRearranges(r, e, key)
    ensures Synced(world, Deliver(r, e, key))
  {
    if Decision(r, e, key).Incremental? {
      IncrementalStepIff(world, r, e, key);
    }
  }

  /** Whatever deltas arrive, in whatever order, the replica always equals the server's
      snapshot at the replica's own version. */
  lemma {:induction false} RunKeepsSynced<T>(world: World<T>, r: Replica<T>, events: seq<Event<T>>, key: T -> string)
    requires WorldOk(world, key) && Synced(world, r) && HonestRun(world, r, events, key)
    ensures Synced(world, Run(r, events, key))
    ensures var after := Run(r, events, key);
      ScopeSync.Indexed(after.items, key) == world[after.state.versionId][after.state.version as int]
    decreases |events|
  {
    if events == [] {
      SyncedIsSnapshot(world, r, key);
    } else {
      DeliverKeepsSynced(world, r, events[0], key);
      RunKeepsSynced(world, Deliver(r, events[0], key), events[1..], key);
    }
  }

  /** Two replicas at the same version hold the same items, and their lists differ at most
      in order. */
  lemma ReplicasAgree<T>(world: World<T>, a: Replica<T>, b: Replica<T>, key: T -> string)
    requires WorldOk(world, key) && Synced(world, a) && Synced(world, b)
    requires a.state.versionId == b.state.versionId && a.state.version == b.state.version
    ensures ScopeSync.Indexed(a.items, key) == ScopeSync.Indexed(b.items, key)
    ensures multiset(a.state.uidList) == multiset(b.state.uidList)
  {
    SyncedIsSnapshot(world, a, key);
    SyncedIsSnapshot(world, b, key);
    forall x ensures x in a.state.uidList <==> x in b.state.uidList {
      assert x in a.state.uidList <==> x in Elems(a.state.uidList);
      assert x in b.state.uidList <==> x in Elems(b.state.uidList);
    }
    SameElemsSameMultiset(a.state.uidList, b.state.uidList);
  }

  // ----- catching up -----

  /** The newest version among those seen; a delta without changes is not seen at all. */
  function Newest<T>(seen: int, events: seq<Event<T>>): int
    decreases |events|
  {
    if events == [] then seen
    else if !events[0].delta.HasChanges() then Newest(seen, events[1..])
    else Newest(Max(seen, events[0].delta.version as int), events[1..])
  }

  /** No delta with changes is full, belongs to another version id, or skips past the version
      after the newest seen; stale ones may come at any time. */
  predicate NoGap<T>(versionId: string, seen: int, events: seq<Event<T>>)
    decreases |events|
  {
    events != [] ==>
      var delta := events[0].delta;
      if !delta.HasChanges() then NoGap(versionId, seen, events[1..])
      else
        && !delta.full && delta.versionId == versionId && delta.version as int <= seen + 1
        && NoGap(versionId, Max(seen, delta.version as int), events[1..])
  }

  /** No decision along the run asks for a full resynchronisation. */
  predicate NeverFull<T>(r: Replica<T>, events: seq<Event<T>>, key: T -> string)
    decreases |events|
  {
    events != [] ==> !Decision(r, events[0], key).Full? && NeverFull(Deliver(r, events[0], key), events[1..], key)
  }

  /** A run needs no full resynchronisation if and only if its deltas leave no gap, not
      counting the deltas without changes, which never raise the version. */
  lemma {:induction false} NeverFullIff<T>(r: Replica<T>, events: seq<Event<T>>, key: T -> string)
    ensures NeverFull(r, events, key) <==> NoGap(r.state.versionId, r.state.version as int, events)
    decreases |events|
  {
    if events != [] {
      NeverFullIff(Deliver(r, events[0], key), events[1..], key);
    }
  }

  /** Then duplicates and stale deltas in any arrangement leave the replica exactly at the
      newest version that came with a change. */
  lemma {:induction false} CatchesUp<T>(world: World<T>, r: Replica<T>, events: seq<Event<T>>, key: T -> string)
    requires WorldOk(world, key) && Synced(world, r) && HonestRun(world, r, events, key)
    requires NoGap(r.state.versionId, r.state.version as int, events)
    ensures var after := Run(r, events, key);
      && after.state.versionId == r.state.versionId
      && after.state.version as int == Newest(r.state.version as int, events)
      && after.state.version as int < |world[r.state.versionId]|
      && ScopeSync.Indexed(after.items, key) == world[r.state.versionId][after.state.version as int]
    decreases |events|
  {
    if events == [] {
      SyncedIsSnapshot(world, r, key);
    } else {
      DeliverKeepsSynced(world, r, events[0], key);
      CatchesUp(world, Deliver(r, events[0], key), events[1..], key);
    }
  }

  function SampleKey(item: (string, int)): string {
    item.0
  }

  /** The delta to a version, with these updates and nothing else. */
  function SampleEvent(version: u64, updates: seq<(string, int)>): Event<(string, int)> {
    Event(VersionDelta("v", version, false, [], updates, [], false), None, None)
  }

  const SAMPLE_HISTORY: seq<Snapshot<(string, int)>> :=
    [map["a" := ("a", 1)], map["a" := ("a", 1)], map["a" := ("a", 2)]]

  const SAMPLE_REPLICA: Replica<(string, int)> := Replica(VersionState("v", 0, ["a"]), [("a", 1)])

  lemma SampleIsSynced()
    ensures WorldOk(map["v" := SAMPLE_HISTORY], SampleKey)
    ensures Synced(map["v" := SAMPLE_HISTORY], SAMPLE_REPLICA)
  {
    assert ["a"][..0] == [];
    assert Collect(["a"], SAMPLE_HISTORY[0]) == [("a", 1)];
    assert Elems(["a"]) == {"a"};
  }

  lemma SampleIsHonest()
    ensures Honest(map["v" := SAMPLE_HISTORY], SampleEvent(1, []).delta, SampleKey)
    ensures Honest(map["v" := SAMPLE_HISTORY], SampleEvent(2, [("a", 2)]).delta, SampleKey)
  {
    var one: seq<(string, int)> := [("a", 2)];
    assert one + [] == one && one[..0] == [];
    assert ScopeSync.Indexed(one, SampleKey) == map["a" := ("a", 2)];
    assert SAMPLE_HISTORY[0] + map[] == SAMPLE_HISTORY[1];
    assert SAMPLE_HISTORY[1] + map["a" := ("a", 2)] == SAMPLE_HISTORY[2];
  }

  /** Both deltas of a history arrive, in order, but the first changes nothing: the replica
      stays behind, and the second is answered with a full resynchronisation. */
  lemma EmptyDeltaExample()
    ensures var world, r := map["v" := SAMPLE_HISTORY], SAMPLE_REPLICA;
      var first, second := SampleEvent(1, []), SampleEvent(2, [("a", 2)]);
      && WorldOk(world, SampleKey) && Synced(world, r) && HonestRun(world, r, [first, second], SampleKey)
      && Deliver(r, first, SampleKey) == r && Decision(r, second, SampleKey).Full?
  {
    SampleIsSynced();
    SampleIsHonest();
    var second := SampleEvent(2, [("a", 2)]);
    assert [SampleEvent(1, []), second][1..] == [second];
    assert Deliver(SAMPLE_REPLICA, SampleEvent(1, []), SampleKey) == SAMPLE_REPLICA;
    assert HonestRun(map["v" := SAMPLE_HISTORY], SAMPLE_REPLICA, [second], SampleKey);
  }

  /** Across any delivery that adopts no snapshot the version of a replica never moves back,
      and moves forward by one at most. */
  lemma DeliverNeverRegresses<T>(r: Replica<T>, e: Event<T>, key: T -> string)
    requires !Decision(r, e, key).Full?
    ensures Deliver(r, e, key).state.versionId == r.state.versionId
    ensures r.state.version as int <= Deliver(r, e, key).state.version as int <= r.state.version as int + 1
    ensures Deliver(r, e, key).state.version == r.state.version ==> Deliver(r, e, key) == r
  {
  }
}
