/** Plan-then-apply refines "replace this scope of the map".

    `SyncedMap` and `SyncSummary` say, without a plan, what planning and applying do.
    `ReplaceScope` is the simple form: forget the scope, then store the server list, later
    items winning.  The sync, which touches only the entries that changed, equals it exactly
    when no repeated server key brings back the entry already stored. */
module ScopeSync {
  import opened Common
  import opened SyncDiff

  function Indexed<T, K(==)>(server: seq<T>, fk: T -> K): map<K, T> {
    if server == [] then map[] else
    var n := |server| - 1;
    Indexed(server[..n], fk)[fk(server[n]) := server[n]]
  }

  function Outside<T, K(==)>(m: map<K, T>, inScope: K -> bool): map<K, T> {
    map k | k in m && !inScope(k) :: m[k]
  }

  function Inside<T, K(==)>(m: map<K, T>, inScope: K -> bool): map<K, T> {
    map k | k in m && inScope(k) :: m[k]
  }

  function ReplaceScope<T, K(==)>(m: map<K, T>, inScope: K -> bool, server: seq<T>, fk: T -> K): map<K, T> {
    Outside(m, inScope) + Indexed(server, fk)
  }

  ghost predicate DistinctKeys<T, K>(items: seq<T>, fk: T -> K) {
    forall i, j :: 0 <= i < j < |items| ==> fk(items[i]) != fk(items[j])
  }

  /** If the last server item for `k` equals the stored entry, so does every other one. */
  ghost predicate StaleFreeAt<T, K>(m: map<K, T>, server: seq<T>, fk: T -> K, k: K) {
    LastDiffering(server, fk, k, None) == Lookup(m, k) ==>
      forall x :: x in server && fk(x) == k ==> Some(x) == Lookup(m, k)
  }

  /** No server key whose last item equals the stored entry carries a different item before it. */
  ghost predicate NoStaleRepeat<T, K>(m: map<K, T>, server: seq<T>, fk: T -> K) {
    forall k :: k in KeysOf(server, fk) ==> StaleFreeAt(m, server, fk, k)
  }

  /** Items that share a key are equal. */
  ghost predicate ConsistentRepeats<T, K>(server: seq<T>, fk: T -> K) {
    forall x, y :: x in server && y in server && fk(x) == fk(y) ==> x == y
  }

  lemma {:induction false} IndexedIsLast<T, K>(server: seq<T>, fk: T -> K, k: K)
    ensures Lookup(Indexed(server, fk), k) == LastDiffering(server, fk, k, None)
    ensures k in Indexed(server, fk) <==> k in KeysOf(server, fk)
  {
    if server != [] {
      var n := |server| - 1;
      IndexedIsLast(server[..n], fk, k);
      KeysOfSnoc(server, n, fk);
      assert server[..n + 1] == server;
    }
  }

  lemma {:induction false} LastOfSame<T, K>(server: seq<T>, fk: T -> K, k: K, before: Option<T>)
    requires LastDiffering(server, fk, k, None) != before
    ensures LastDiffering(server, fk, k, before) == LastDiffering(server, fk, k, None)
  {
    if server != [] {
      var n := |server| - 1;
      if fk(server[n]) != k {
        LastOfSame(server[..n], fk, k, before);
      }
    }
  }

  lemma MapsEqual<K(!new), T>(a: map<K, T>, b: map<K, T>)
    requires forall k :: Lookup(a, k) == Lookup(b, k)
    ensures a == b
  {
    assert forall k :: k in a <==> Lookup(a, k).Some?;
    assert forall k :: k in b <==> Lookup(b, k).Some?;
    assert forall k :: k in a ==> a[k] == Lookup(a, k).value;
    assert forall k :: k in b ==> b[k] == Lookup(b, k).value;
  }

  // ----- what a sync does -----

  datatype DomainSyncSummary = Summary(inserted: nat, updated: nat, deleted: nat, untouched: nat)

  const EMPTY_SUMMARY := Summary(0, 0, 0, 0)

  /** The server items by what the map holds for them. */
  function Tally<T(==), K(==)>(m: map<K, T>, fk: T -> K, server: seq<T>, options: DiffOptions): DomainSyncSummary {
    if server == [] then EMPTY_SUMMARY else
    TallyItem(m, fk, Tally(m, fk, server[..|server| - 1], options), server[|server| - 1], options)
  }

  function TallyItem<T(==), K(==)>(m: map<K, T>, fk: T -> K, before: DomainSyncSummary, x: T,
                                   options: DiffOptions): DomainSyncSummary
  {
    if fk(x) !in m then before.(inserted := before.inserted + 1)
    else if m[fk(x)] != x then before.(updated := before.updated + 1)
    else if options.includeUnchanged then before.(untouched := before.untouched + 1)
    else before
  }

  /** The map a sync leaves, entry by entry. */
  function SyncedMap<T(==), K(==)>(m: map<K, T>, fk: T -> K, inScope: K -> bool, server: seq<T>,
                                   options: DiffOptions): map<K, T>
  {
    map k | k in m.Keys + KeysOf(server, fk) && SyncedEntry(m, fk, inScope, server, options, k).Some?
      :: SyncedEntry(m, fk, inScope, server, options, k).value
  }

  /** What a sync counts, from the map before it. */
  function SyncSummary<T(==), K(==)>(m: map<K, T>, fk: T -> K, inScope: K -> bool, server: seq<T>,
                                     options: DiffOptions): DomainSyncSummary
  {
    Tally(m, fk, server, options).(deleted :=
      if options.skipDeletion then 0 else |Inside(m, inScope).Keys - KeysOf(server, fk)|)
  }

  lemma SyncedMapEntry<T(!new), K>(m: map<K, T>, fk: T -> K, inScope: K -> bool, server: seq<T>,
                                   options: DiffOptions, k: K)
    ensures Lookup(SyncedMap(m, fk, inScope, server, options), k)
         == SyncedEntry(m, fk, inScope, server, options, k)
  {
    LastDifferingIsListed(server, fk, k, Lookup(m, k));
  }

  /** Entries stay under the keys their own fields give. */
  lemma SyncedMapKeyed<T(!new), K(!new)>(m: map<K, T>, fk: T -> K, inScope: K -> bool, server: seq<T>,
                                         options: DiffOptions)
    requires Keyed(m, fk)
    ensures Keyed(SyncedMap(m, fk, inScope, server, options), fk)
  {
    forall k | k in SyncedMap(m, fk, inScope, server, options)
      ensures fk(SyncedMap(m, fk, inScope, server, options)[k]) == k
    {
      LastDifferingIsListed(server, fk, k, Lookup(m, k));
    }
  }

  // ----- the plan does it -----

  /** Applying the plan leaves the synced map, whatever order the local list came in. */
  lemma PlanApplied<T(!new), K(!new), S>(m: map<K, T>, fk: T -> K, inScope: K -> bool,
                                         server: seq<T>, local: seq<T>, key: T -> S, options: DiffOptions)
    requires Syncable(m, fk, inScope, server, local, key)
    ensures ApplyAll(m, fk, Plan(server, local, key, SameValue<T>, options))
         == SyncedMap(m, fk, inScope, server, options)
  {
    forall k
      ensures Lookup(ApplyAll(m, fk, Plan(server, local, key, SameValue<T>, options)), k)
           == Lookup(SyncedMap(m, fk, inScope, server, options), k)
    {
      SyncEntry(m, fk, inScope, server, local, key, options, k);
      SyncedMapEntry(m, fk, inScope, server, options, k);
    }
    MapsEqual(ApplyAll(m, fk, Plan(server, local, key, SameValue<T>, options)),
              SyncedMap(m, fk, inScope, server, options));
  }

  function Record<T>(summary: DomainSyncSummary, action: SyncAction<T>): DomainSyncSummary {
    match action
    case Unchanged(_, _) => summary.(untouched := summary.untouched + 1)
    case Insert(_) => summary.(inserted := summary.inserted + 1)
    case Update(_, _) => summary.(updated := summary.updated + 1)
    case Delete(_) => summary.(deleted := summary.deleted + 1)
  }

  function Summarize<T>(actions: seq<SyncAction<T>>): DomainSyncSummary {
    if actions == [] then EMPTY_SUMMARY else
    Record(Summarize(actions[..|actions| - 1]), actions[|actions| - 1])
  }

  lemma SummarizeSnoc<T>(a: seq<SyncAction<T>>, x: SyncAction<T>)
    ensures Summarize(a + [x]) == Record(Summarize(a), x)
  {
    assert (a + [x])[..|a + [x]| - 1] == a;
  }

  /** One turn of a loop that applies and counts actions. */
  lemma ApplyOneMore<T, K>(m: map<K, T>, fk: T -> K, actions: seq<SyncAction<T>>, i: nat)
    requires i < |actions|
    ensures ApplyAll(m, fk, actions[..i + 1]) == ApplyAction(ApplyAll(m, fk, actions[..i]), fk, actions[i])
    ensures Summarize(actions[..i + 1]) == Record(Summarize(actions[..i]), actions[i])
  {
    TakeSnoc(actions, i);
  }

  lemma {:induction false} ServerActionsSummary<T(!new), K, S>(
      m: map<K, T>, fk: T -> K, inScope: K -> bool, server: seq<T>, local: seq<T>, key: T -> S,
      options: DiffOptions)
    requires Syncable(m, fk, inScope, server, local, key)
    ensures Summarize(ServerActions(server, local, key, SameValue<T>, options))
         == Tally(m, fk, server, options)
  {
    if server != [] {
      var n := |server| - 1;
      ServerActionsSummary(m, fk, inScope, server[..n], local, key, options);
      ItemSummary(m, fk, inScope, server, local, key, options, server[n],
                  ServerActions(server[..n], local, key, SameValue<T>, options));
    }
  }

  /** One server item is counted by what the map holds for it. */
  lemma ItemSummary<T(!new), K, S>(
      m: map<K, T>, fk: T -> K, inScope: K -> bool, server: seq<T>, local: seq<T>, key: T -> S,
      options: DiffOptions, item: T, before: seq<SyncAction<T>>)
    requires Syncable(m, fk, inScope, server, local, key) && item in server
    ensures Summarize(before + ActionsFor(item, local, key, SameValue<T>, options))
         == TallyItem(m, fk, Summarize(before), item, options)
  {
    MatchIsEntry(m, fk, inScope, server, local, key, item);
    var step := ActionsFor(item, local, key, SameValue<T>, options);
    if step == [] {
      assert before + step == before;
    } else {
      assert step == [step[0]];
      SummarizeSnoc(before, step[0]);
    }
  }

  /** Deletions are counted by the keys they remove. */
  lemma {:induction false} DeleteActionsSummary<T, K, S>(fk: T -> K, local: seq<T>, key: T -> S, kept: set<S>,
                                                         first: seq<SyncAction<T>>)
    requires DistinctKeys(local, fk)
    ensures Summarize(first + DeleteActions(local, key, kept))
         == Summarize(first).(deleted := Summarize(first).deleted + |Deleted(fk, local, key, kept)|)
  {
    if local == [] {
      assert first + [] == first;
    } else {
      var n := |local| - 1;
      DeleteActionsSummary(fk, local[..n], key, kept, first);
      DeletedSnoc(fk, local, key, kept);
      var actions := first + DeleteActions(local[..n], key, kept);
      if key(local[n]) in kept {
        assert DeleteActions(local[..n], key, kept) + [] == DeleteActions(local[..n], key, kept);
      } else {
        assert fk(local[n]) !in Deleted(fk, local[..n], key, kept);
        assert first + DeleteActions(local, key, kept) == actions + [Delete(local[n])];
        SummarizeSnoc(actions, Delete(local[n]));
      }
    }
  }

  lemma DistinctLocal<T(!new), K>(m: map<K, T>, fk: T -> K, inScope: K -> bool, local: seq<T>)
    requires Enumerates(local, m, fk, inScope)
    ensures DistinctKeys(local, fk)
  {
    forall i, j | 0 <= i < j < |local| ensures fk(local[i]) != fk(local[j]) {
      assert local[i] in local && local[j] in local;
    }
  }

  lemma KeysOfMember<T, K>(items: seq<T>, fk: T -> K, x: T)
    requires x in items
    ensures fk(x) in KeysOf(items, fk)
  {
    var i :| 0 <= i < |items| && items[i] == x;
  }

  /** What the plan deletes is the scope without the server keys. */
  lemma DeletedIsScopeRest<T(!new), K(!new), S>(m: map<K, T>, fk: T -> K, inScope: K -> bool,
                                                server: seq<T>, local: seq<T>, key: T -> S)
    requires Syncable(m, fk, inScope, server, local, key)
    ensures Deleted(fk, local, key, KeysOf(server, key)) == Inside(m, inScope).Keys - KeysOf(server, fk)
  {
    var gone, kept := Deleted(fk, local, key, KeysOf(server, key)), KeysOf(server, key);
    forall k | k in gone ensures k in Inside(m, inScope).Keys - KeysOf(server, fk) {
      var i :| 0 <= i < |local| && key(local[i]) !in kept && fk(local[i]) == k;
      assert local[i] in local;
    }
    forall k | k in Inside(m, inScope).Keys - KeysOf(server, fk) ensures k in gone {
      var i :| 0 <= i < |local| && local[i] == m[k];
      assert key(local[i]) !in kept;
    }
  }

  /** The summary kept while applying the plan. */
  lemma PlanSummarized<T(!new), K(!new), S>(m: map<K, T>, fk: T -> K, inScope: K -> bool,
                                            server: seq<T>, local: seq<T>, key: T -> S, options: DiffOptions)
    requires Syncable(m, fk, inScope, server, local, key)
    ensures Summarize(Plan(server, local, key, SameValue<T>, options))
         == SyncSummary(m, fk, inScope, server, options)
  {
    var first := ServerActions(server, local, key, SameValue<T>, options);
    ServerActionsSummary(m, fk, inScope, server, local, key, options);
    TallyDeletesNothing(m, fk, server, options);
    if options.skipDeletion {
      assert first + [] == first;
    } else {
      DistinctLocal(m, fk, inScope, local);
      DeleteActionsSummary(fk, local, key, KeysOf(server, key), first);
      DeletedIsScopeRest(m, fk, inScope, server, local, key);
    }
  }

  /** Planning and applying, as a service does it. */
  lemma PlanIsSync<T(!new), K(!new), S>(m: map<K, T>, fk: T -> K, inScope: K -> bool,
                                        server: seq<T>, local: seq<T>, key: T -> S, options: DiffOptions)
    requires Syncable(m, fk, inScope, server, local, key)
    ensures var actions := Plan(server, local, key, SameValue<T>, options);
      && ApplyAll(m, fk, actions) == SyncedMap(m, fk, inScope, server, options)
      && Summarize(actions) == SyncSummary(m, fk, inScope, server, options)
    ensures Keyed(SyncedMap(m, fk, inScope, server, options), fk)
  {
    PlanApplied(m, fk, inScope, server, local, key, options);
    PlanSummarized(m, fk, inScope, server, local, key, options);
    SyncedMapKeyed(m, fk, inScope, server, options);
  }

  lemma {:induction false} TallyDeletesNothing<T, K>(m: map<K, T>, fk: T -> K, server: seq<T>, options: DiffOptions)
    ensures Tally(m, fk, server, options).deleted == 0
  {
    if server != [] {
      TallyDeletesNothing(m, fk, server[..|server| - 1], options);
    }
  }

  // ----- replacing the scope -----

  /** At one key: the sync leaves the last server item there iff the key has no stale repeat. */
  lemma EntryIsLastWins<T(!new), K>(m: map<K, T>, fk: T -> K, inScope: K -> bool, server: seq<T>,
                                    options: DiffOptions, k: K)
    requires k in KeysOf(server, fk)
    ensures (SyncedEntry(m, fk, inScope, server, options, k) == LastDiffering(server, fk, k, None))
       <==> StaleFreeAt(m, server, fk, k)
  {
    LastDifferingIsListed(server, fk, k, Lookup(m, k));
    LastDifferingIsListed(server, fk, k, None);
    var i :| 0 <= i < |server| && fk(server[i]) == k;
    assert server[i] in server;
    if LastDiffering(server, fk, k, None) != Lookup(m, k) {
      LastOfSame(server, fk, k, Lookup(m, k));
    }
  }

  /** The sync against a simple form that stores the last item of each server key and agrees
      with the sync elsewhere. */
  lemma SyncVersusLastWins<T(!new), K(!new)>(m: map<K, T>, fk: T -> K, inScope: K -> bool, server: seq<T>,
                                             options: DiffOptions, simple: map<K, T>)
    requires forall k :: k in KeysOf(server, fk) ==>
      Lookup(simple, k) == LastDiffering(server, fk, k, None)
    requires forall k :: k !in KeysOf(server, fk) ==>
      Lookup(simple, k) == SyncedEntry(m, fk, inScope, server, options, k)
    ensures SyncedMap(m, fk, inScope, server, options) == simple <==> NoStaleRepeat(m, server, fk)
  {
    var after := SyncedMap(m, fk, inScope, server, options);
    forall k ensures Lookup(after, k) == SyncedEntry(m, fk, inScope, server, options, k)
      ensures k in KeysOf(server, fk) ==>
        (Lookup(after, k) == Lookup(simple, k) <==> StaleFreeAt(m, server, fk, k))
    {
      SyncedMapEntry(m, fk, inScope, server, options, k);
      if k in KeysOf(server, fk) {
        EntryIsLastWins(m, fk, inScope, server, options, k);
      }
    }
    if NoStaleRepeat(m, server, fk) {
      MapsEqual(after, simple);
    }
  }

  lemma ElsewhereEntry<T(!new), K>(m: map<K, T>, fk: T -> K, inScope: K -> bool, server: seq<T>,
                                   options: DiffOptions, k: K)
    requires k !in KeysOf(server, fk)
    ensures SyncedEntry(m, fk, inScope, server, options, k)
         == if inScope(k) && !options.skipDeletion then None else Lookup(m, k)
  {
    LastDifferingIsListed(server, fk, k, Lookup(m, k));
  }

  /** Synchronising a scope is replacing it, later items winning, iff no stale repeat. */
  lemma SyncReplacesScopeIff<T(!new), K(!new)>(m: map<K, T>, fk: T -> K, inScope: K -> bool, server: seq<T>)
    requires forall x :: x in server ==> inScope(fk(x))
    ensures SyncedMap(m, fk, inScope, server, DEFAULT_OPTIONS) == ReplaceScope(m, inScope, server, fk)
       <==> NoStaleRepeat(m, server, fk)
  {
    var simple := ReplaceScope(m, inScope, server, fk);
    forall k
      ensures k in KeysOf(server, fk) ==> Lookup(simple, k) == LastDiffering(server, fk, k, None)
      ensures k !in KeysOf(server, fk) ==>
        Lookup(simple, k) == SyncedEntry(m, fk, inScope, server, DEFAULT_OPTIONS, k)
    {
      IndexedIsLast(server, fk, k);
      if k !in KeysOf(server, fk) {
        ElsewhereEntry(m, fk, inScope, server, DEFAULT_OPTIONS, k);
      }
    }
    SyncVersusLastWins(m, fk, inScope, server, DEFAULT_OPTIONS, simple);
  }

  /** Without deletions the server list is laid over the map, again iff no stale repeat. */
  lemma SyncOverlaysIff<T(!new), K(!new)>(m: map<K, T>, fk: T -> K, inScope: K -> bool, server: seq<T>)
    ensures SyncedMap(m, fk, inScope, server, OVERLAY_OPTIONS) == m + Indexed(server, fk)
       <==> NoStaleRepeat(m, server, fk)
  {
    var simple := m + Indexed(server, fk);
    forall k
      ensures k in KeysOf(server, fk) ==> Lookup(simple, k) == LastDiffering(server, fk, k, None)
      ensures k !in KeysOf(server, fk) ==>
        Lookup(simple, k) == SyncedEntry(m, fk, inScope, server, OVERLAY_OPTIONS, k)
    {
      IndexedIsLast(server, fk, k);
      if k !in KeysOf(server, fk) {
        ElsewhereEntry(m, fk, inScope, server, OVERLAY_OPTIONS, k);
      }
    }
    SyncVersusLastWins(m, fk, inScope, server, OVERLAY_OPTIONS, simple);
  }

  lemma DistinctIsConsistent<T(!new), K>(m: map<K, T>, server: seq<T>, fk: T -> K)
    requires DistinctKeys(server, fk)
    ensures ConsistentRepeats(server, fk) && NoStaleRepeat(m, server, fk)
  {
    forall x, y | x in server && y in server && fk(x) == fk(y) ensures x == y {
      var i :| 0 <= i < |server| && server[i] == x;
      var j :| 0 <= j < |server| && server[j] == y;
      assert i == j;
    }
    forall k | k in KeysOf(server, fk) ensures StaleFreeAt(m, server, fk, k) {
      LastDifferingIsListed(server, fk, k, None);
    }
  }

  /** The code is not last-wins on every input: the stored entry comes last in the server
      list, so its earlier rival is what stays. */
  lemma StaleRepeatExample()
    ensures var m := map["k" := ("k", 1)];
      var server := [("k", 2), ("k", 1)];
      var fk := (x: (string, int)) => x.0;
      && SyncedMap(m, fk, k => true, server, DEFAULT_OPTIONS)["k"] == ("k", 2)
      && ReplaceScope(m, k => true, server, fk)["k"] == ("k", 1)
  {
    var m := map["k" := ("k", 1)];
    var server := [("k", 2), ("k", 1)];
    var fk := (x: (string, int)) => x.0;
    assert server[..1] == [("k", 2)];
    SyncedMapEntry(m, fk, k => true, server, DEFAULT_OPTIONS, "k");
    IndexedIsLast(server, fk, "k");
  }

  /** Repeating a sync finds nothing to do iff the server list never gives one key two values. */
  lemma SecondSyncUnchangedIff<T(!new), K(!new)>(m: map<K, T>, fk: T -> K, inScope: K -> bool, server: seq<T>)
    requires forall x :: x in server ==> inScope(fk(x))
    ensures var after := SyncedMap(m, fk, inScope, server, DEFAULT_OPTIONS);
      (SyncSummary(after, fk, inScope, server, DEFAULT_OPTIONS) == Summary(0, 0, 0, |server|))
        <==> ConsistentRepeats(server, fk)
    ensures ConsistentRepeats(server, fk) ==>
      var after := SyncedMap(m, fk, inScope, server, DEFAULT_OPTIONS);
      SyncedMap(after, fk, inScope, server, DEFAULT_OPTIONS) == after
  {
    var after := SyncedMap(m, fk, inScope, server, DEFAULT_OPTIONS);
    forall x | x in server
      ensures fk(x) in after && (ConsistentRepeats(server, fk) ==> after[fk(x)] == x)
    {
      KeysOfMember(server, fk, x);
      SyncedMapEntry(m, fk, inScope, server, DEFAULT_OPTIONS, fk(x));
      LastDifferingIsListed(server, fk, fk(x), Lookup(m, fk(x)));
    }
    forall k | k in Inside(after, inScope) ensures k in KeysOf(server, fk) {
      SyncedMapEntry(m, fk, inScope, server, DEFAULT_OPTIONS, k);
      LastDifferingIsListed(server, fk, k, Lookup(m, k));
    }
    assert Inside(after, inScope).Keys - KeysOf(server, fk) == {};
    TallyAllStored(after, fk, server);
    if ConsistentRepeats(server, fk) {
      forall k ensures Lookup(SyncedMap(after, fk, inScope, server, DEFAULT_OPTIONS), k) == Lookup(after, k) {
        SyncedMapEntry(after, fk, inScope, server, DEFAULT_OPTIONS, k);
        LastDifferingIsListed(server, fk, k, Lookup(after, k));
      }
      MapsEqual(SyncedMap(after, fk, inScope, server, DEFAULT_OPTIONS), after);
    }
  }

  lemma {:induction false} TallyAllStored<T(!new), K>(m: map<K, T>, fk: T -> K, server: seq<T>)
    ensures (Tally(m, fk, server, DEFAULT_OPTIONS) == Summary(0, 0, 0, |server|))
       <==> forall x :: x in server ==> fk(x) in m && m[fk(x)] == x
    ensures var t := Tally(m, fk, server, DEFAULT_OPTIONS);
      t.inserted + t.updated + t.untouched == |server| && t.deleted == 0
  {
    if server != [] {
      var n := |server| - 1;
      TallyAllStored(m, fk, server[..n]);
      assert server == server[..n] + [server[n]];
    }
  }

  // ----- conservation -----

  lemma {:induction false} DistinctKeysSize<T, K>(items: seq<T>, fk: T -> K)
    requires DistinctKeys(items, fk)
    ensures |KeysOf(items, fk)| == |items|
  {
    if items != [] {
      var n := |items| - 1;
      DistinctKeysSize(items[..n], fk);
      KeysOfSnoc(items, n, fk);
      assert items[..n + 1] == items;
      assert fk(items[n]) !in KeysOf(items[..n], fk);
    }
  }

  lemma {:induction false} TallyDistinct<T, K>(m: map<K, T>, fk: T -> K, server: seq<T>)
    requires DistinctKeys(server, fk)
    ensures Tally(m, fk, server, DEFAULT_OPTIONS).inserted == |KeysOf(server, fk) - m.Keys|
  {
    if server != [] {
      var n := |server| - 1;
      TallyDistinct(m, fk, server[..n]);
      KeysOfSnoc(server, n, fk);
      assert server[..n + 1] == server;
      NewElement(KeysOf(server[..n], fk), m.Keys, fk(server[n]));
    }
  }

  lemma NewElement<K>(before: set<K>, known: set<K>, k: K)
    requires k !in before
    ensures |(before + {k}) - known| == |before - known| + (if k in known then 0 else 1)
  {
    if k in known {
      assert (before + {k}) - known == before - known;
    } else {
      assert (before + {k}) - known == (before - known) + {k};
    }
  }

  lemma IntersectionSize<K>(a: set<K>, b: set<K>)
    ensures |a| == |a * b| + |a - b|
  {
    DisjointUnionSize(a * b, a - b, a);
  }

  lemma DisjointUnionSize<K>(a: set<K>, b: set<K>, both: set<K>)
    requires both == a + b && a !! b
    ensures |both| == |a| + |b|
  {
  }

  lemma MapSize<K, T>(m: map<K, T>)
    ensures |m| == |m.Keys|
  {
  }

  lemma ReplacedKeys<T(!new), K(!new)>(m: map<K, T>, fk: T -> K, inScope: K -> bool, server: seq<T>)
    requires forall x :: x in server ==> inScope(fk(x))
    ensures var after := ReplaceScope(m, inScope, server, fk);
      && after.Keys == Outside(m, inScope).Keys + KeysOf(server, fk)
      && Inside(after, inScope).Keys == KeysOf(server, fk)
      && Outside(m, inScope).Keys !! KeysOf(server, fk)
  {
    forall k ensures k in Indexed(server, fk) <==> k in KeysOf(server, fk) {
      IndexedIsLast(server, fk, k);
    }
    assert forall k :: k in KeysOf(server, fk) ==> inScope(k);
  }

  lemma ReplacedSize<T(!new), K(!new)>(m: map<K, T>, fk: T -> K, inScope: K -> bool, server: seq<T>)
    requires DistinctKeys(server, fk)
    requires forall x :: x in server ==> inScope(fk(x))
    ensures var after := ReplaceScope(m, inScope, server, fk);
      |Inside(after, inScope)| == |server| && |after| == |m| - |Inside(m, inScope)| + |server|
  {
    var after := ReplaceScope(m, inScope, server, fk);
    ReplacedKeys(m, fk, inScope, server);
    DistinctKeysSize(server, fk);
    MapSize(after);
    MapSize(m);
    MapSize(Inside(m, inScope));
    MapSize(Inside(after, inScope));
    DisjointUnionSize(Outside(m, inScope).Keys, Inside(m, inScope).Keys, m.Keys);
    DisjointUnionSize(Outside(m, inScope).Keys, KeysOf(server, fk), after.Keys);
  }

  /** Every server item is counted once.  With distinct server keys every entry of the scope
      is counted once too, the scope ends as large as the server list, and the size of the
      whole map moves by what was inserted and deleted. */
  lemma SyncConservesCounts<T(!new), K(!new)>(m: map<K, T>, fk: T -> K, inScope: K -> bool, server: seq<T>)
    requires forall x :: x in server ==> inScope(fk(x))
    ensures var s := SyncSummary(m, fk, inScope, server, DEFAULT_OPTIONS);
      var after := SyncedMap(m, fk, inScope, server, DEFAULT_OPTIONS);
      && s.inserted + s.updated + s.untouched == |server|
      && (DistinctKeys(server, fk) ==>
            && s.deleted + s.updated + s.untouched == |Inside(m, inScope)|
            && |Inside(after, inScope)| == |server|
            && |after| == |m| + s.inserted - s.deleted)
  {
    TallyAllStored(m, fk, server);
    if DistinctKeys(server, fk) {
      DistinctIsConsistent(m, server, fk);
      SyncReplacesScopeIff(m, fk, inScope, server);
      TallyDistinct(m, fk, server);
      DistinctKeysSize(server, fk);
      ReplacedSize(m, fk, inScope, server);
      ScopeBalance(m, fk, inScope, server);
    }
  }

  /** Scope minus deleted and server minus inserted are the same keys. */
  lemma ScopeBalance<T(!new), K(!new)>(m: map<K, T>, fk: T -> K, inScope: K -> bool, server: seq<T>)
    requires forall x :: x in server ==> inScope(fk(x))
    ensures var mine, theirs := Inside(m, inScope).Keys, KeysOf(server, fk);
      |Inside(m, inScope)| - |mine - theirs| == |theirs| - |theirs - m.Keys|
  {
    var mine, theirs := Inside(m, inScope).Keys, KeysOf(server, fk);
    assert forall k :: k in theirs ==> inScope(k);
    assert theirs - m.Keys == theirs - mine;
    IntersectionSize(mine, theirs);
    IntersectionSize(theirs, mine);
    assert mine * theirs == theirs * mine;
    MapSize(Inside(m, inScope));
  }

  /** After a sync with distinct keys any listing of the scope is the server list rearranged. */
  lemma ScopeListsServer<T(!new), K(!new)>(m: map<K, T>, fk: T -> K, inScope: K -> bool, server: seq<T>,
                                           listed: seq<T>)
    requires DistinctKeys(server, fk) && forall x :: x in server ==> inScope(fk(x))
    requires Enumerates(listed, SyncedMap(m, fk, inScope, server, DEFAULT_OPTIONS), fk, inScope)
    ensures multiset(listed) == multiset(server)
  {
    var after := SyncedMap(m, fk, inScope, server, DEFAULT_OPTIONS);
    DistinctIsConsistent(m, server, fk);
    SyncReplacesScopeIff(m, fk, inScope, server);
    forall x ensures x in listed <==> x in server {
      IndexedIsLast(server, fk, fk(x));
      LastDifferingIsListed(server, fk, fk(x), None);
      if x in server {
        KeysOfMember(server, fk, x);
        assert after[fk(x)] == x;
      }
    }
    SameElemsSameMultiset(listed, server);
  }
}
