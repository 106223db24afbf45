/** Turning a server list and a local list into actions, and applying the actions to a map.

    `DiffBy` is the loop of `diff_by`.  The services keep their entities in maps keyed by
    fields of the entity and run the same loop over the plan; `ApplyAll` is that loop's
    effect.  The theorems say what the two steps together do to the map. */
module SyncDiff {
  import opened Common

  datatype SyncAction<+T> =
    | Unchanged(server: T, local: T)
    | Insert(server: T)
    | Update(server: T, local: T)
    | Delete(local: T)

  datatype DiffOptions = DiffOptions(skipDeletion: bool, includeUnchanged: bool)

  const DEFAULT_OPTIONS := DiffOptions(false, true)
  const OVERLAY_OPTIONS := DiffOptions(true, true)

  predicate SameValue<T(==)>(server: T, local: T) {
    server == local
  }

  // ----- the plan -----

  /** Position of the last local item with each key. */
  function IndexByKey<T, K>(local: seq<T>, key: T -> K): map<K, nat> {
    if local == [] then map[] else
    var n := |local| - 1;
    IndexByKey(local[..n], key)[key(local[n]) := n]
  }

  lemma {:induction false} IndexByKeyValid<T, K>(local: seq<T>, key: T -> K)
    ensures forall k :: k in IndexByKey(local, key) ==>
      IndexByKey(local, key)[k] < |local| && key(local[IndexByKey(local, key)[k]]) == k
    ensures forall i :: 0 <= i < |local| ==> key(local[i]) in IndexByKey(local, key)
  {
    if local != [] {
      var n := |local| - 1;
      IndexByKeyValid(local[..n], key);
      forall i | 0 <= i < |local| ensures key(local[i]) in IndexByKey(local, key) {
        assert i < n ==> local[..n][i] == local[i];
      }
    }
  }

  function ActionsFor<T, K(==)>(item: T, local: seq<T>, key: T -> K, equal: (T, T) -> bool,
                                options: DiffOptions): seq<SyncAction<T>>
  {
    IndexByKeyValid(local, key);
    var index := IndexByKey(local, key);
    if key(item) !in index then
      [Insert(item)]
    else
      var mine := local[index[key(item)]];
      if !equal(item, mine) then [Update(item, mine)]
      else if options.includeUnchanged then [Unchanged(item, mine)]
      else []
  }

  function ServerActions<T, K(==)>(server: seq<T>, local: seq<T>, key: T -> K,
                                   equal: (T, T) -> bool, options: DiffOptions): seq<SyncAction<T>>
  {
    if server == [] then [] else
    var n := |server| - 1;
    ServerActions(server[..n], local, key, equal, options)
      + ActionsFor(server[n], local, key, equal, options)
  }

  function KeysOf<T, K>(items: seq<T>, key: T -> K): set<K> {
    set i | 0 <= i < |items| :: key(items[i])
  }

  function DeleteActions<T, K(==)>(local: seq<T>, key: T -> K, kept: set<K>): seq<SyncAction<T>> {
    if local == [] then [] else
    var n := |local| - 1;
    DeleteActions(local[..n], key, kept)
      + (if key(local[n]) in kept then [] else [Delete(local[n])])
  }

  function Plan<T, K(==)>(server: seq<T>, local: seq<T>, key: T -> K, equal: (T, T) -> bool,
                          options: DiffOptions): seq<SyncAction<T>>
  {
    ServerActions(server, local, key, equal, options)
      + (if options.skipDeletion then [] else DeleteActions(local, key, KeysOf(server, key)))
  }

  lemma KeysOfSnoc<T, K>(items: seq<T>, i: nat, key: T -> K)
    requires i < |items|
    ensures KeysOf(items[..i + 1], key) == KeysOf(items[..i], key) + {key(items[i])}
  {
    TakeSnoc(items, i);
    forall k ensures k in KeysOf(items[..i + 1], key)
                <==> k in KeysOf(items[..i], key) + {key(items[i])} {
      if k in KeysOf(items[..i], key) {
        var j :| 0 <= j < i && key(items[..i][j]) == k;
        assert items[..i + 1][j] == items[..i][j];
      }
      if k in KeysOf(items[..i + 1], key) {
        var j :| 0 <= j < i + 1 && key(items[..i + 1][j]) == k;
        assert j < i ==> items[..i][j] == items[..i + 1][j];
      }
      assert items[..i + 1][i] == items[i];
    }
  }

  /** Deleting is decided by the server keys that matched a local item, which is the same
      as by all server keys. */
  lemma {:induction false} DeleteActionsByMatched<T, K>(local: seq<T>, key: T -> K, kept: set<K>, matched: set<K>)
    requires forall i :: 0 <= i < |local| ==> (key(local[i]) in kept <==> key(local[i]) in matched)
    ensures DeleteActions(local, key, kept) == DeleteActions(local, key, matched)
  {
    if local != [] {
      var n := |local| - 1;
      assert forall i :: 0 <= i < n ==> local[..n][i] == local[i];
      DeleteActionsByMatched(local[..n], key, kept, matched);
    }
  }

  method DiffBy<T, K(==)>(server: seq<T>, local: seq<T>, key: T -> K, equal: (T, T) -> bool,
                          options: DiffOptions)
    returns (actions: seq<SyncAction<T>>)
    ensures actions == Plan(server, local, key, equal, options)
  {
    var localByKey: map<K, nat> := map[];
    for idx := 0 to |local|
      invariant localByKey == IndexByKey(local[..idx], key)
    {
      TakeSnoc(local, idx);
      localByKey := localByKey[key(local[idx]) := idx];
    }
    assert local[..|local|] == local;
    IndexByKeyValid(local, key);

    var consumed: set<K> := {};
    actions := [];
    for i := 0 to |server|
      invariant actions == ServerActions(server[..i], local, key, equal, options)
      invariant consumed == KeysOf(server[..i], key) * localByKey.Keys
    {
      TakeSnoc(server, i);
      KeysOfSnoc(server, i, key);
      var id := key(server[i]);
      if id !in localByKey {
        actions := actions + [Insert(server[i])];
        continue;
      }
      consumed := consumed + {id};
      var localItem := local[localByKey[id]];
      if equal(server[i], localItem) {
        if options.includeUnchanged {
          actions := actions + [Unchanged(server[i], localItem)];
        }
      } else {
        actions := actions + [Update(server[i], localItem)];
      }
    }
    assert server[..|server|] == server;

    if !options.skipDeletion {
      DeleteActionsByMatched(local, key, KeysOf(server, key), consumed);
      ghost var planned := actions;
      for i := 0 to |local|
        invariant actions == planned + DeleteActions(local[..i], key, consumed)
      {
        TakeSnoc(local, i);
        var id := key(local[i]);
        if id !in consumed {
          actions := actions + [Delete(local[i])];
        }
      }
      assert local[..|local|] == local;
    }
  }

  lemma {:induction false} ServerActionsNeverDelete<T(!new), K>(server: seq<T>, local: seq<T>, key: T -> K,
                                                                equal: (T, T) -> bool, options: DiffOptions)
    ensures forall a :: a in ServerActions(server, local, key, equal, options) ==> !a.Delete?
  {
    if server != [] {
      ServerActionsNeverDelete(server[..|server| - 1], local, key, equal, options);
    }
  }

  // ----- applying a plan -----

  function ApplyAction<T, K(==)>(m: map<K, T>, fk: T -> K, action: SyncAction<T>): map<K, T> {
    match action
    case Insert(server) => m[fk(server) := server]
    case Update(server, _) => m[fk(server) := server]
    case Delete(local) => m - {fk(local)}
    case Unchanged(_, _) => m
  }

  function ApplyAll<T, K(==)>(m: map<K, T>, fk: T -> K, actions: seq<SyncAction<T>>): map<K, T> {
    if actions == [] then m else
    var n := |actions| - 1;
    ApplyAction(ApplyAll(m, fk, actions[..n]), fk, actions[n])
  }

  lemma {:induction false} ApplyAllAppend<T, K>(m: map<K, T>, fk: T -> K,
                                                a: seq<SyncAction<T>>, b: seq<SyncAction<T>>)
    ensures ApplyAll(m, fk, a + b) == ApplyAll(ApplyAll(m, fk, a), fk, b)
  {
    if b == [] {
      assert a + b == a;
    } else {
      var n := |b| - 1;
      ApplyAllAppend(m, fk, a, b[..n]);
      assert (a + b)[..|a + b| - 1] == a + b[..n];
    }
  }

  /** Every entry is stored under the key its own fields give. */
  ghost predicate Keyed<T, K>(m: map<K, T>, fk: T -> K) {
    forall k :: k in m ==> fk(m[k]) == k
  }

  /** `local` lists the entries of `m` inside the scope, each once, in any order. */
  ghost predicate Enumerates<T, K>(local: seq<T>, m: map<K, T>, fk: T -> K, inScope: K -> bool) {
    && NoDup(local)
    && (forall x :: x in local ==> fk(x) in m && m[fk(x)] == x && inScope(fk(x)))
    && (forall k :: k in m && inScope(k) ==> m[k] in local)
  }

  /** What a service synchronises: its map, the scope, the lists and the keys.  The short
      key of the diff and the full key of the map identify the same items in the scope. */
  ghost predicate Syncable<T(!new), K, S>(m: map<K, T>, fk: T -> K, inScope: K -> bool,
                                          server: seq<T>, local: seq<T>, key: T -> S)
  {
    && Keyed(m, fk)
    && Enumerates(local, m, fk, inScope)
    && (forall x :: x in server ==> inScope(fk(x)))
    && (forall x, y :: inScope(fk(x)) && inScope(fk(y)) ==> (key(x) == key(y) <==> fk(x) == fk(y)))
  }

  /** The last server item for key `k` that differs from the entry held before. */
  function LastDiffering<T(==), K(==)>(server: seq<T>, fk: T -> K, k: K, before: Option<T>): Option<T> {
    if server == [] then None else
    var n := |server| - 1;
    if fk(server[n]) == k && Some(server[n]) != before then Some(server[n])
    else LastDiffering(server[..n], fk, k, before)
  }

  /** The entry a sync leaves at key `k`. */
  function SyncedEntry<T(==), K(==)>(m: map<K, T>, fk: T -> K, inScope: K -> bool, server: seq<T>,
                                     options: DiffOptions, k: K): Option<T>
  {
    var changed := LastDiffering(server, fk, k, Lookup(m, k));
    if changed.Some? then changed
    else if inScope(k) && !options.skipDeletion && k !in KeysOf(server, fk) then None
    else Lookup(m, k)
  }

  /** One server item changes at most its own entry, and to itself. */
  lemma ItemEntry<T(!new), K, S>(m: map<K, T>, now: map<K, T>, fk: T -> K, inScope: K -> bool,
                                 server: seq<T>, local: seq<T>, key: T -> S,
                                 options: DiffOptions, item: T, k: K)
    requires Syncable(m, fk, inScope, server, local, key) && item in server
    ensures Lookup(ApplyAll(now, fk, ActionsFor(item, local, key, SameValue<T>, options)), k)
         == if fk(item) == k && Some(item) != Lookup(m, k) then Some(item) else Lookup(now, k)
  {
    MatchIsEntry(m, fk, inScope, server, local, key, item);
    var step := ActionsFor(item, local, key, SameValue<T>, options);
    if step != [] {
      assert step[..0] == [];
      assert ApplyAll(now, fk, step) == ApplyAction(now, fk, step[0]);
    }
  }

  lemma {:induction false} ServerActionsEntry<T(!new), K, S>(
      m: map<K, T>, fk: T -> K, inScope: K -> bool, server: seq<T>, local: seq<T>, key: T -> S,
      options: DiffOptions, k: K)
    requires Syncable(m, fk, inScope, server, local, key)
    ensures Lookup(ApplyAll(m, fk, ServerActions(server, local, key, SameValue<T>, options)), k)
         == (var changed := LastDiffering(server, fk, k, Lookup(m, k));
             if changed.Some? then changed else Lookup(m, k))
  {
    if server != [] {
      var n := |server| - 1;
      ServerActionsEntry(m, fk, inScope, server[..n], local, key, options, k);
      var before := ServerActions(server[..n], local, key, SameValue<T>, options);
      ApplyAllAppend(m, fk, before, ActionsFor(server[n], local, key, SameValue<T>, options));
      ItemEntry(m, ApplyAll(m, fk, before), fk, inScope, server, local, key, options, server[n], k);
    }
  }

  /** Looking an item up in the index of the local list is looking it up in the map. */
  lemma MatchIsEntry<T(!new), K, S>(m: map<K, T>, fk: T -> K, inScope: K -> bool,
                                    server: seq<T>, local: seq<T>, key: T -> S, item: T)
    requires Syncable(m, fk, inScope, server, local, key) && item in server
    ensures key(item) in IndexByKey(local, key) <==> fk(item) in m
    ensures fk(item) in m ==>
      IndexByKey(local, key)[key(item)] < |local|
      && local[IndexByKey(local, key)[key(item)]] == m[fk(item)]
  {
    IndexByKeyValid(local, key);
    if fk(item) in m {
      var mine := m[fk(item)];
      var i :| 0 <= i < |local| && local[i] == mine;
      assert key(local[i]) == key(item);
      var j := IndexByKey(local, key)[key(item)];
      assert local[j] in local;
      assert fk(local[j]) == fk(item);
    }
    if key(item) in IndexByKey(local, key) {
      assert local[IndexByKey(local, key)[key(item)]] in local;
    }
  }

  /** The map keys of the local items that are not kept. */
  function Deleted<T, K(==), S(==)>(fk: T -> K, local: seq<T>, key: T -> S, kept: set<S>): set<K> {
    set i | 0 <= i < |local| && key(local[i]) !in kept :: fk(local[i])
  }

  lemma DeletedSnoc<T, K, S>(fk: T -> K, local: seq<T>, key: T -> S, kept: set<S>)
    requires local != []
    ensures var n := |local| - 1;
      Deleted(fk, local, key, kept)
        == Deleted(fk, local[..n], key, kept) + (if key(local[n]) in kept then {} else {fk(local[n])})
  {
    assert forall i :: 0 <= i < |local| - 1 ==> local[..|local| - 1][i] == local[i];
  }

  lemma {:induction false} DeleteActionsRemove<T, K, S>(m: map<K, T>, fk: T -> K, local: seq<T>,
                                                        key: T -> S, kept: set<S>)
    ensures ApplyAll(m, fk, DeleteActions(local, key, kept)) == m - Deleted(fk, local, key, kept)
  {
    if local != [] {
      var n := |local| - 1;
      var before := DeleteActions(local[..n], key, kept);
      DeleteActionsRemove(m, fk, local[..n], key, kept);
      DeletedSnoc(fk, local, key, kept);
      if key(local[n]) in kept {
        assert before + [] == before;
      } else {
        assert (before + [Delete(local[n])])[..|before|] == before;
      }
    }
  }

  /** Planning and applying, entry by entry, for any server list, repeated keys included. */
  lemma SyncEntry<T(!new), K, S>(m: map<K, T>, fk: T -> K, inScope: K -> bool,
                                 server: seq<T>, local: seq<T>, key: T -> S,
                                 options: DiffOptions, k: K)
    requires Syncable(m, fk, inScope, server, local, key)
    ensures Lookup(ApplyAll(m, fk, Plan(server, local, key, SameValue<T>, options)), k)
         == SyncedEntry(m, fk, inScope, server, options, k)
  {
    var first := ServerActions(server, local, key, SameValue<T>, options);
    ServerActionsEntry(m, fk, inScope, server, local, key, options, k);
    var middle := ApplyAll(m, fk, first);
    if options.skipDeletion {
      assert first + [] == first;
    } else {
      var kept := KeysOf(server, key);
      ApplyAllAppend(m, fk, first, DeleteActions(local, key, kept));
      DeleteActionsRemove(middle, fk, local, key, kept);
      var gone := Deleted(fk, local, key, kept);
      LastDifferingIsListed(server, fk, k, Lookup(m, k));
      assert k in gone ==> k in m && inScope(k) && k !in KeysOf(server, fk) by {
        if k in gone {
          var i :| 0 <= i < |local| && key(local[i]) !in kept && fk(local[i]) == k;
          assert local[i] in local;
        }
      }
      assert k in m && inScope(k) && k !in KeysOf(server, fk) ==> k in gone by {
        if k in m && inScope(k) && k !in KeysOf(server, fk) {
          var i :| 0 <= i < |local| && local[i] == m[k];
          assert key(local[i]) !in kept;
        }
      }
    }
  }

  lemma {:induction false} LastDifferingIsListed<T, K>(server: seq<T>, fk: T -> K, k: K, before: Option<T>)
    ensures var d := LastDiffering(server, fk, k, before);
      d.Some? ==> d.value in server && fk(d.value) == k && d != before && k in KeysOf(server, fk)
    ensures LastDiffering(server, fk, k, before).None? ==>
      forall x :: x in server && fk(x) == k ==> Some(x) == before
  {
    if server != [] {
      var n := |server| - 1;
      LastDifferingIsListed(server[..n], fk, k, before);
      KeysOfSnoc(server, n, fk);
      assert server == server[..n] + [server[n]] && server[..n + 1] == server;
    }
  }
}
