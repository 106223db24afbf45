/** Deciding what a version delta means for a replica: nothing, a full resynchronisation, or
    one incremental step. */
module VersionSync {
  import opened Common
  import opened ScopeSync

  datatype VersionState = VersionState(versionId: string, version: u64, uidList: seq<string>)

  datatype VersionDelta<+T> = VersionDelta(
    versionId: string, version: u64, full: bool, deleteIds: seq<string>,
    updates: seq<T>, inserts: seq<T>, idOrderChanged: bool)
  {
    predicate HasChanges() {
      full || deleteIds != [] || updates != [] || inserts != [] || idOrderChanged
    }
  }

  datatype VersionDecision<+T> =
    | Noop
    | Full
    | Incremental(serverItems: seq<T>, nextState: VersionState)

  function DeleteIds(ids: seq<string>, deletes: seq<string>): seq<string> {
    if deletes == [] then ids else Filter(ids, id => id !in deletes)
  }

  /** The id list after the changed items: a new id goes to the end. */
  function MergeIds<T>(ids: seq<string>, changed: seq<T>, key: T -> string): seq<string> {
    if changed == [] then ids else
    var n := |changed| - 1;
    var merged := MergeIds(ids, changed[..n], key);
    if key(changed[n]) in merged then merged else merged + [key(changed[n])]
  }

  /** The items behind a list of ids; an id without an item is skipped. */
  function Collect<T>(ids: seq<string>, items: map<string, T>): seq<T> {
    if ids == [] then [] else
    var n := |ids| - 1;
    Collect(ids[..n], items) + (if ids[n] in items then [items[ids[n]]] else [])
  }

  /** The items after a delta. */
  function Patched<T>(items: map<string, T>, delta: VersionDelta<T>, key: T -> string): map<string, T> {
    (items - Elems(delta.deleteIds)) + Indexed(delta.updates + delta.inserts, key)
  }

  function MergedIds<T>(ids: seq<string>, delta: VersionDelta<T>, key: T -> string): seq<string> {
    MergeIds(DeleteIds(ids, delta.deleteIds), delta.updates + delta.inserts, key)
  }

  function NextIds<T>(ids: seq<string>, delta: VersionDelta<T>, key: T -> string,
                      refreshed: Option<seq<string>>): seq<string>
  {
    if delta.idOrderChanged && refreshed.Some? then refreshed.value else MergedIds(ids, delta, key)
  }

  function VersionPlan<T>(local: VersionState, localItems: seq<T>, delta: VersionDelta<T>,
                          key: T -> string, refreshed: Option<seq<string>>): VersionDecision<T>
  {
    if !delta.HasChanges() then Noop
    else if delta.full || delta.versionId != local.versionId then Full
    else if delta.version <= local.version then Noop
    else if delta.version as int != local.version as int + 1 then Full
    else
      var ids := NextIds(local.uidList, delta, key, refreshed);
      Incremental(Collect(ids, Patched(Indexed(localItems, key), delta, key)),
                  VersionState(delta.versionId, delta.version, ids))
  }

  /** When nothing is to be done, when everything has to be fetched, and when one step will do,
      written out. */
  lemma VersionPlanIff<T>(local: VersionState, localItems: seq<T>, delta: VersionDelta<T>,
                          key: T -> string, refreshed: Option<seq<string>>)
    ensures var decision := VersionPlan(local, localItems, delta, key, refreshed);
      var changes := delta.full || delta.idOrderChanged || |delta.deleteIds| + |delta.updates| + |delta.inserts| > 0;
      var same := !delta.full && delta.versionId == local.versionId;
      && (decision.Noop? <==> !changes || (same && delta.version as int <= local.version as int))
      && (decision.Full? <==> changes && (!same || delta.version as int > local.version as int + 1))
      && (decision.Incremental? <==> changes && same && delta.version as int == local.version as int + 1)
    ensures var decision := VersionPlan(local, localItems, delta, key, refreshed);
      decision.Incremental? ==>
        && decision.nextState.versionId == delta.versionId && decision.nextState.version == delta.version
        && decision.nextState.uidList == (if delta.idOrderChanged && refreshed.Some? then refreshed.value
                                          else MergedIds(local.uidList, delta, key))
  {
  }

  /** The last of the changed items with this id, if there is one. */
  predicate LastWithId<T>(changed: seq<T>, key: T -> string, id: string, j: nat) {
    j < |changed| && key(changed[j]) == id && forall i :: j < i < |changed| ==> key(changed[i]) != id
  }

  /** What a delta makes of one item: the last change decides, then the deletion. */
  lemma {:induction false} PatchedEntry<T>(items: map<string, T>, delta: VersionDelta<T>, key: T -> string, id: string)
    ensures var changed, after := delta.updates + delta.inserts, Lookup(Patched(items, delta, key), id);
      && (forall j: nat :: LastWithId(changed, key, id, j) ==> after == Some(changed[j]))
      && ((forall j :: 0 <= j < |changed| ==> key(changed[j]) != id) ==>
           after == if id in delta.deleteIds then None else Lookup(items, id))
  {
    var changed := delta.updates + delta.inserts;
    assert id in Elems(delta.deleteIds) <==> id in delta.deleteIds;
    IndexedEntry(changed, key, id);
  }

  lemma {:induction false} IndexedEntry<T>(changed: seq<T>, key: T -> string, id: string)
    ensures forall j: nat :: LastWithId(changed, key, id, j) ==> Lookup(Indexed(changed, key), id) == Some(changed[j])
    ensures (forall j :: 0 <= j < |changed| ==> key(changed[j]) != id) ==> Lookup(Indexed(changed, key), id) == None
  {
    if changed != [] {
      var n := |changed| - 1;
      IndexedEntry(changed[..n], key, id);
      if key(changed[n]) != id {
        forall j: nat ensures LastWithId(changed, key, id, j) ==> LastWithId(changed[..n], key, id, j) {
        }
      }
    }
  }

  /** Laying items out along ids skips the ids without an item and keeps the order. */
  lemma {:induction false} CollectPlaces<T>(ids: seq<string>, items: map<string, T>) returns (at: seq<nat>)
    ensures forall k :: k in at <==> 0 <= k < |ids| && ids[k] in items
    ensures forall i, j :: 0 <= i < j < |at| ==> at[i] < at[j]
    ensures |at| == |Collect(ids, items)|
    ensures forall i :: 0 <= i < |at| ==> at[i] in at && Collect(ids, items)[i] == items[ids[at[i]]]
  {
    at := [];
    if ids != [] {
      var n := |ids| - 1;
      var before := CollectPlaces(ids[..n], items);
      at := before + (if ids[n] in items then [n] else []);
      assert forall k :: k in at <==> k in before || (k == n && ids[n] in items);
    }
  }

  method IndexItems<T>(localItems: seq<T>, key: T -> string) returns (items: map<string, T>)
    ensures items == Indexed(localItems, key)
  {
    items := map[];
    for i := 0 to |localItems|
      invariant items == Indexed(localItems[..i], key)
    {
      TakeSnoc(localItems, i);
      items := items[key(localItems[i]) := localItems[i]];
    }
    assert localItems[..|localItems|] == localItems;
  }

  method RemoveIds<T>(items: map<string, T>, ids: seq<string>) returns (rest: map<string, T>)
    ensures rest == items - Elems(ids)
  {
    rest := items;
    for i := 0 to |ids|
      invariant rest == items - Elems(ids[..i])
    {
      TakeSnoc(ids, i);
      rest := rest - {ids[i]};
    }
    assert ids[..|ids|] == ids;
  }

  method CollectItems<T>(ids: seq<string>, items: map<string, T>) returns (collected: seq<T>)
    ensures collected == Collect(ids, items)
  {
    collected := [];
    for i := 0 to |ids|
      invariant collected == Collect(ids[..i], items)
    {
      TakeSnoc(ids, i);
      if ids[i] in items {
        collected := collected + [items[ids[i]]];
      }
    }
    assert ids[..|ids|] == ids;
  }

  method PlanVersionSync<T>(local: VersionState, localItems: seq<T>, delta: VersionDelta<T>,
                            key: T -> string, refreshed: Option<seq<string>>)
    returns (decision: VersionDecision<T>)
    ensures decision == VersionPlan(local, localItems, delta, key, refreshed)
  {
    if !delta.HasChanges() {
      return Noop;
    }
    if delta.full || delta.versionId != local.versionId {
      return Full;
    }
    if delta.version <= local.version {
      return Noop;
    }
    if delta.version != local.version + 1 {
      return Full;
    }

    var uidList := DeleteIds(local.uidList, delta.deleteIds);
    var items := IndexItems(localItems, key);
    items := RemoveIds(items, delta.deleteIds);

    var changed := delta.updates + delta.inserts;
    ghost var kept, cleaned := items, uidList;
    for i := 0 to |changed|
      invariant items == kept + Indexed(changed[..i], key)
      invariant uidList == MergeIds(cleaned, changed[..i], key)
    {
      TakeSnoc(changed, i);
      var id := key(changed[i]);
      if id !in uidList {
        uidList := uidList + [id];
      }
      items := items[id := changed[i]];
    }
    assert changed[..|changed|] == changed;

    if delta.idOrderChanged && refreshed.Some? {
      uidList := refreshed.value;
    }

    var serverItems := CollectItems(uidList, items);
    decision := Incremental(serverItems, VersionState(delta.versionId, delta.version, uidList));
  }

  // ----- what the pieces keep -----

  lemma {:induction false} MergeIdsElems<T>(ids: seq<string>, changed: seq<T>, key: T -> string)
    requires NoDup(ids)
    ensures NoDup(MergeIds(ids, changed, key))
    ensures Elems(MergeIds(ids, changed, key)) == Elems(ids) + Indexed(changed, key).Keys
  {
    if changed != [] {
      var n := |changed| - 1;
      MergeIdsElems(ids, changed[..n], key);
      var merged, id := MergeIds(ids, changed[..n], key), key(changed[n]);
      assert Elems(merged + [id]) == Elems(merged) + {id};
      assert id in merged <==> id in Elems(merged);
      assert Indexed(changed, key).Keys == Indexed(changed[..n], key).Keys + {id};
    }
  }

  /** `at` are the places in `changed` of the ids that are not in `ids`, each where it comes
      first. */
  ghost predicate FirstArrivals<T(!new)>(ids: seq<string>, changed: seq<T>, key: T -> string, at: seq<nat>) {
    && (forall k :: k in at <==> 0 <= k < |changed| && IsFirst(ids, changed, key, k))
    && (forall i, j :: 0 <= i < j < |at| ==> at[i] < at[j])
  }

  predicate IsFirst<T>(ids: seq<string>, changed: seq<T>, key: T -> string, k: nat)
    requires k < |changed|
  {
    key(changed[k]) !in ids && forall j :: 0 <= j < k ==> key(changed[j]) != key(changed[k])
  }

  predicate Arrives<T>(changed: seq<T>, key: T -> string, id: string) {
    exists j :: 0 <= j < |changed| && key(changed[j]) == id
  }

  lemma ArrivesSnoc<T>(changed: seq<T>, key: T -> string, id: string)
    requires changed != []
    ensures Arrives(changed, key, id) <==>
      id == key(changed[|changed| - 1]) || Arrives(changed[..|changed| - 1], key, id)
  {
    var n := |changed| - 1;
    assert forall j :: 0 <= j < n ==> changed[..n][j] == changed[j];
    if j :| 0 <= j < |changed| && key(changed[j]) == id {
      assert j < n ==> key(changed[..n][j]) == id;
    }
  }

  lemma {:induction false} MergeIdsMembers<T>(ids: seq<string>, changed: seq<T>, key: T -> string)
    ensures forall id :: id in MergeIds(ids, changed, key) <==> id in ids || Arrives(changed, key, id)
  {
    if changed != [] {
      var n := |changed| - 1;
      MergeIdsMembers(ids, changed[..n], key);
      forall id ensures Arrives(changed, key, id) <==> id == key(changed[n]) || Arrives(changed[..n], key, id) {
        ArrivesSnoc(changed, key, id);
      }
    }
  }

  lemma FirstArrivalsSnoc<T(!new)>(ids: seq<string>, changed: seq<T>, key: T -> string, before: seq<nat>)
    requires changed != [] && FirstArrivals(ids, changed[..|changed| - 1], key, before)
    ensures var n := |changed| - 1;
      FirstArrivals(ids, changed, key, before + (if IsFirst(ids, changed, key, n) then [n] else []))
  {
    var n := |changed| - 1;
    forall k | 0 <= k < n ensures IsFirst(ids, changed, key, k) <==> IsFirst(ids, changed[..n], key, k) {
      assert forall j :: 0 <= j <= k ==> changed[..n][j] == changed[j];
    }
    assert forall i :: 0 <= i < |before| ==> before[i] in before;
  }

  lemma LastIsFirst<T(!new)>(ids: seq<string>, changed: seq<T>, key: T -> string)
    requires changed != []
    ensures var n := |changed| - 1;
      IsFirst(ids, changed, key, n) <==> key(changed[n]) !in MergeIds(ids, changed[..n], key)
  {
    var n := |changed| - 1;
    MergeIdsMembers(ids, changed[..n], key);
    ArrivesSnoc(changed, key, key(changed[n]));
    assert forall j :: 0 <= j < n ==> changed[..n][j] == changed[j];
  }

  /** The ids there were stay where they are, and the new ones follow, in the order in which
      they first come. */
  lemma {:induction false} MergeIdsInOrder<T(!new)>(ids: seq<string>, changed: seq<T>, key: T -> string) returns (at: seq<nat>)
    ensures FirstArrivals(ids, changed, key, at)
    ensures |MergeIds(ids, changed, key)| == |ids| + |at| && ids <= MergeIds(ids, changed, key)
    ensures forall i :: 0 <= i < |at| ==> at[i] < |changed| && MergeIds(ids, changed, key)[|ids| + i] == key(changed[at[i]])
  {
    at := [];
    if changed != [] {
      var n := |changed| - 1;
      at := MergeIdsInOrder(ids, changed[..n], key);
      FirstArrivalsSnoc(ids, changed, key, at);
      LastIsFirst(ids, changed, key);
      at := at + (if IsFirst(ids, changed, key, n) then [n] else []);
    }
  }

  /** Merging after deletion: the surviving ids, in their order, and after them the new ones. */
  lemma MergedIdsInOrder<T(!new)>(ids: seq<string>, delta: VersionDelta<T>, key: T -> string)
    returns (kept: seq<nat>, survivors: seq<string>, at: seq<nat>)
    ensures PicksInOrder(survivors, ids, kept)
    ensures forall k :: k in kept <==> 0 <= k < |ids| && ids[k] !in delta.deleteIds
    ensures FirstArrivals(survivors, delta.updates + delta.inserts, key, at)
    ensures |MergedIds(ids, delta, key)| == |survivors| + |at| && survivors <= MergedIds(ids, delta, key)
    ensures forall i :: 0 <= i < |at| ==>
      at[i] < |delta.updates + delta.inserts|
      && MergedIds(ids, delta, key)[|survivors| + i] == key((delta.updates + delta.inserts)[at[i]])
  {
    survivors := DeleteIds(ids, delta.deleteIds);
    var stays := (id: string) => id !in delta.deleteIds;
    kept := FilterPlaces(ids, stays);
    if delta.deleteIds == [] {
      FilterEverything(ids, stays);
    }
    at := MergeIdsInOrder(survivors, delta.updates + delta.inserts, key);
  }

  /** Merging keeps the list free of repeats and lists exactly the ids of the patched items. */
  lemma MergedIdsElems<T>(ids: seq<string>, items: map<string, T>, delta: VersionDelta<T>, key: T -> string)
    requires NoDup(ids) && Elems(ids) == items.Keys
    ensures NoDup(MergedIds(ids, delta, key))
    ensures Elems(MergedIds(ids, delta, key)) == Patched(items, delta, key).Keys
  {
    var cleaned := DeleteIds(ids, delta.deleteIds);
    FilterMembers(ids, id => id !in delta.deleteIds);
    FilterNoDup(ids, id => id !in delta.deleteIds);
    MergeIdsElems(cleaned, delta.updates + delta.inserts, key);
    assert Elems(cleaned) == Elems(ids) - Elems(delta.deleteIds);
  }

  lemma {:induction false} CollectAll<T>(ids: seq<string>, items: map<string, T>)
    requires forall id :: id in ids ==> id in items
    ensures |Collect(ids, items)| == |ids|
    ensures forall i :: 0 <= i < |ids| ==> Collect(ids, items)[i] == items[ids[i]]
  {
    if ids != [] {
      CollectAll(ids[..|ids| - 1], items);
    }
  }

  /** A map laid out as a list along its ids is that map again. */
  lemma {:induction false} IndexedCollect<T>(ids: seq<string>, items: map<string, T>, key: T -> string)
    requires forall id :: id in items ==> key(items[id]) == id
    requires forall id :: id in ids ==> id in items
    ensures Indexed(Collect(ids, items), key) == map id | id in Elems(ids) :: items[id]
  {
    if ids != [] {
      var n := |ids| - 1;
      IndexedCollect(ids[..n], items, key);
      CollectAll(ids, items);
      CollectAll(ids[..n], items);
      var all := Collect(ids, items);
      assert all[..n] == Collect(ids[..n], items);
      assert ids == ids[..n] + [ids[n]];
    }
  }

  /** Laid out along a complete list of its ids, a map is recovered whole. */
  lemma LayoutRoundTrip<T>(ids: seq<string>, items: map<string, T>, key: T -> string)
    requires forall id :: id in items ==> key(items[id]) == id
    requires Elems(ids) == items.Keys
    ensures Indexed(Collect(ids, items), key) == items
    ensures |Collect(ids, items)| == |ids|
    ensures forall i :: 0 <= i < |ids| ==> key(Collect(ids, items)[i]) == ids[i]
  {
    assert forall id :: id in ids ==> id in Elems(ids);
    CollectAll(ids, items);
    IndexedCollect(ids, items, key);
  }
}
