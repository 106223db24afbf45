/** The browser storage keeps every message and conversation twice: under its own key, and in
    the list of its conversation or owner.  The two writes are separate transactions, and the
    program may stop between them. */
module IndexedDb {
  import opened Common
  import opened Sorting
  import opened SyncDiff
  import ScopeSync
  import HashMaps
  import opened Paging
  import opened Message
  import opened Conversation

  type Key = (string, string)

  /** The primary store, and the lists by the first part of the key. */
  datatype Store<T> = Store(primary: map<Key, T>, lists: map<string, seq<T>>)

  function ListOf<T>(lists: map<string, seq<T>>, group: string): seq<T> {
    if group in lists then lists[group] else []
  }

  /** Overwrites the first item with the same id, or appends. */
  function UpsertList<T>(items: seq<T>, item: T, fk: T -> Key): seq<T> {
    if items == [] then [item]
    else if fk(items[0]).1 == fk(item).1 then [item] + items[1..]
    else [items[0]] + UpsertList(items[1..], item, fk)
  }

  function Without<T>(items: seq<T>, id: string, fk: T -> Key): seq<T> {
    Filter(items, HasOtherId(id, fk))
  }

  function HasOtherId<T>(id: string, fk: T -> Key): T -> bool {
    (x: T) => fk(x).1 != id
  }

  /** How far an operation gets: not at all, through its first write, or to the end. */
  datatype Stop = BeforeWrites | BetweenWrites | Completed

  function Saved<T>(s: Store<T>, item: T, fk: T -> Key, stop: Stop): Store<T> {
    match stop
    case BeforeWrites => s
    case BetweenWrites => s.(primary := s.primary[fk(item) := item])
    case Completed => Store(s.primary[fk(item) := item],
                            s.lists[fk(item).0 := UpsertList(ListOf(s.lists, fk(item).0), item, fk)])
  }

  function Removed<T>(s: Store<T>, k: Key, fk: T -> Key, stop: Stop): Store<T> {
    match stop
    case BeforeWrites => s
    case BetweenWrites => s.(primary := s.primary - {k})
    case Completed => Store(s.primary - {k}, s.lists[k.0 := Without(ListOf(s.lists, k.0), k.1, fk)])
  }

  // ----- agreement -----

  ghost predicate GroupOk<T>(items: seq<T>, g: string, fk: T -> Key) {
    && (forall x :: x in items ==> fk(x).0 == g)
    && ScopeSync.DistinctKeys(items, fk)
  }

  /** Lists hold items of their own group, each id once. */
  ghost predicate ListsOk<T>(lists: map<string, seq<T>>, fk: T -> Key) {
    forall g :: g in lists ==> GroupOk(lists[g], g, fk)
  }

  ghost predicate AgreesAt<T(!new)>(s: Store<T>, fk: T -> Key, k: Key) {
    forall x :: fk(x) == k ==> (x in ListOf(s.lists, k.0) <==> k in s.primary && s.primary[k] == x)
  }

  /** The two copies agree, but for the keys in `dirty`. */
  ghost predicate AgreesExcept<T(!new)>(s: Store<T>, fk: T -> Key, dirty: set<Key>) {
    && Keyed(s.primary, fk)
    && ListsOk(s.lists, fk)
    && forall k: Key :: k !in dirty ==> AgreesAt(s, fk, k)
  }

  /** Each list is a listing of the primary store restricted to its group. */
  ghost predicate Agrees<T(!new)>(s: Store<T>, fk: T -> Key) {
    && Keyed(s.primary, fk)
    && forall g :: Enumerates(ListOf(s.lists, g), s.primary, fk, KeysUnder(g))
  }

  lemma AgreesIffNoneDirty<T(!new)>(s: Store<T>, fk: T -> Key)
    ensures AgreesExcept(s, fk, {}) <==> Agrees(s, fk)
  {
    if AgreesExcept(s, fk, {}) {
      forall g ensures Enumerates(ListOf(s.lists, g), s.primary, fk, KeysUnder(g)) {
        forall x | x in ListOf(s.lists, g) ensures fk(x) in s.primary && s.primary[fk(x)] == x {
          assert AgreesAt(s, fk, fk(x));
        }
        forall k | k in s.primary && KeysUnder(g)(k) ensures s.primary[k] in ListOf(s.lists, g) {
          assert AgreesAt(s, fk, k);
        }
      }
    }
    if Agrees(s, fk) {
      forall g | g in s.lists
        ensures GroupOk(s.lists[g], g, fk)
      {
        var items := ListOf(s.lists, g);
        assert Enumerates(items, s.primary, fk, KeysUnder(g));
        forall i, j | 0 <= i < j < |items| ensures fk(items[i]) != fk(items[j]) {
          assert items[i] in items && items[j] in items;
        }
      }
      forall k: Key ensures AgreesAt(s, fk, k) {
        assert Enumerates(ListOf(s.lists, k.0), s.primary, fk, KeysUnder(k.0));
      }
    }
  }

  /** The head of a list with distinct keys has a key of its own. */
  lemma HeadIsDistinct<T(!new)>(items: seq<T>, fk: T -> Key)
    requires items != [] && ScopeSync.DistinctKeys(items, fk)
    ensures ScopeSync.DistinctKeys(items[1..], fk)
    ensures forall x :: x in items[1..] ==> fk(x) != fk(items[0])
  {
    forall x | x in items[1..] ensures fk(x) != fk(items[0]) {
      var j :| 0 <= j < |items[1..]| && items[1..][j] == x;
      assert fk(items[0]) != fk(items[j + 1]);
    }
  }

  lemma ConsDistinct<T(!new)>(x: T, rest: seq<T>, g: string, fk: T -> Key)
    requires GroupOk(rest, g, fk) && fk(x).0 == g
    requires forall y :: y in rest ==> fk(y) != fk(x)
    ensures GroupOk([x] + rest, g, fk)
    ensures forall y :: y in [x] + rest <==> y == x || y in rest
  {
    var all := [x] + rest;
    forall i, j | 0 <= i < j < |all| ensures fk(all[i]) != fk(all[j]) {
      assert all[j] == rest[j - 1];
    }
  }

  /** Upserting keeps ids unique, stores the item, and moves no other one. */
  lemma {:induction false} UpsertListMembers<T(!new)>(items: seq<T>, item: T, fk: T -> Key)
    requires GroupOk(items, fk(item).0, fk)
    ensures GroupOk(UpsertList(items, item, fk), fk(item).0, fk)
    ensures forall x :: x in UpsertList(items, item, fk) <==> x == item || (x in items && fk(x) != fk(item))
  {
    if items != [] {
      HeadIsDistinct(items, fk);
      assert items == [items[0]] + items[1..];
      assert forall x :: x in items <==> x == items[0] || x in items[1..];
      if fk(items[0]).1 == fk(item).1 {
        assert fk(items[0]) == fk(item);
        ConsDistinct(item, items[1..], fk(item).0, fk);
      } else {
        UpsertListMembers(items[1..], item, fk);
        ConsDistinct(items[0], UpsertList(items[1..], item, fk), fk(item).0, fk);
      }
    }
  }

  lemma {:induction false} DistinctFilter<T(!new)>(items: seq<T>, fk: T -> Key, p: T -> bool)
    requires ScopeSync.DistinctKeys(items, fk)
    ensures ScopeSync.DistinctKeys(Filter(items, p), fk)
  {
    if items != [] {
      var n := |items| - 1;
      DistinctFilter(items[..n], fk, p);
      FilterMembers(items[..n], p);
      forall x | x in items[..n] ensures fk(x) != fk(items[n]) {
        var j :| 0 <= j < n && items[..n][j] == x;
        assert fk(items[j]) != fk(items[n]);
      }
      var head, rest := Filter(items[..n], p), Filter(items, p);
      forall i, j | 0 <= i < j < |rest| ensures fk(rest[i]) != fk(rest[j]) {
        assert rest[i] == head[i] && head[i] in head;
        if j < |head| {
          assert rest[j] == head[j];
          assert fk(head[i]) != fk(head[j]);
        }
      }
    }
  }

  lemma WithoutMembers<T(!new)>(items: seq<T>, k: Key, fk: T -> Key)
    requires GroupOk(items, k.0, fk)
    ensures GroupOk(Without(items, k.1, fk), k.0, fk)
    ensures forall x :: x in Without(items, k.1, fk) <==> x in items && fk(x) != k
  {
    FilterMembers(items, HasOtherId(k.1, fk));
    DistinctFilter(items, fk, HasOtherId(k.1, fk));
    forall x | x in items ensures HasOtherId(k.1, fk)(x) <==> fk(x) != k {
      assert fk(x).0 == k.0;
    }
  }

  // ----- runs -----

  datatype Op<T> = Save(item: T, stop: Stop) | Remove(k: Key, stop: Stop)

  function OpKey<T>(op: Op<T>, fk: T -> Key): Key {
    match op
    case Save(item, _) => fk(item)
    case Remove(k, _) => k
  }

  function Perform<T>(s: Store<T>, op: Op<T>, fk: T -> Key): Store<T> {
    match op
    case Save(item, stop) => Saved(s, item, fk, stop)
    case Remove(k, stop) => Removed(s, k, fk, stop)
  }

  lemma {:induction false} UpsertListHolds<T(!new)>(items: seq<T>, item: T, fk: T -> Key)
    ensures item in UpsertList(items, item, fk)
    ensures forall x :: fk(x).1 != fk(item).1 ==> (x in UpsertList(items, item, fk) <==> x in items)
  {
    if items != [] && fk(items[0]).1 != fk(item).1 {
      UpsertListHolds(items[1..], item, fk);
      var rest := UpsertList(items[1..], item, fk);
      assert UpsertList(items, item, fk) == [items[0]] + rest;
      assert item in rest;
      assert items == [items[0]] + items[1..];
    }
  }

  /** A completed save is in both copies, and nothing else has changed. */
  lemma SavedIsStored<T(!new)>(s: Store<T>, item: T, fk: T -> Key)
    ensures var after := Saved(s, item, fk, Completed);
      && Lookup(after.primary, fk(item)) == Some(item)
      && item in ListOf(after.lists, fk(item).0)
      && (forall k :: k != fk(item) ==> Lookup(after.primary, k) == Lookup(s.primary, k))
      && (forall g :: g != fk(item).0 ==> ListOf(after.lists, g) == ListOf(s.lists, g))
      && (forall x :: fk(x).1 != fk(item).1 ==> (x in ListOf(after.lists, fk(item).0) <==> x in ListOf(s.lists, fk(item).0)))
  {
    UpsertListHolds(ListOf(s.lists, fk(item).0), item, fk);
  }

  /** A completed removal leaves nothing under its key in either copy, and changes nothing else. */
  lemma RemovedIsGone<T(!new)>(s: Store<T>, k: Key, fk: T -> Key)
    ensures var after := Removed(s, k, fk, Completed);
      && k !in after.primary
      && (forall x :: x in ListOf(after.lists, k.0) <==> x in ListOf(s.lists, k.0) && fk(x).1 != k.1)
      && (forall j :: j != k ==> Lookup(after.primary, j) == Lookup(s.primary, j))
      && (forall g :: g != k.0 ==> ListOf(after.lists, g) == ListOf(s.lists, g))
  {
    FilterMembers(ListOf(s.lists, k.0), HasOtherId(k.1, fk));
  }

  /** A stopped operation has done its first write, to the primary store, or nothing. */
  lemma StoppedHalfway<T>(s: Store<T>, item: T, k: Key, fk: T -> Key)
    ensures Saved(s, item, fk, BeforeWrites) == s && Removed(s, k, fk, BeforeWrites) == s
    ensures Saved(s, item, fk, BetweenWrites).lists == s.lists == Removed(s, k, fk, BetweenWrites).lists
    ensures Saved(s, item, fk, BetweenWrites).primary == Saved(s, item, fk, Completed).primary
    ensures Removed(s, k, fk, BetweenWrites).primary == Removed(s, k, fk, Completed).primary
  {
  }

  lemma OthersUntouched<T(!new)>(s: Store<T>, op: Op<T>, fk: T -> Key, k: Key)
    requires op.stop.Completed? && OpKey(op, fk) != k
    ensures Lookup(Perform(s, op, fk).primary, k) == Lookup(s.primary, k)
  {
  }

  /** Over completed operations the last one on a key decides what is there. */
  lemma {:induction false} LastOperationDecides<T(!new)>(s: Store<T>, ops: seq<Op<T>>, fk: T -> Key, i: nat)
    requires forall j :: 0 <= j < |ops| ==> ops[j].stop.Completed?
    requires i < |ops| && forall j :: i < j < |ops| ==> OpKey(ops[j], fk) != OpKey(ops[i], fk)
    ensures Lookup(PerformAll(s, ops, fk).primary, OpKey(ops[i], fk)) == if ops[i].Save? then Some(ops[i].item) else None
  {
    var n := |ops| - 1;
    var before := PerformAll(s, ops[..n], fk);
    if i == n {
      match ops[n] {
        case Save(item, _) => SavedIsStored(before, item, fk);
        case Remove(k, _) => RemovedIsGone(before, k, fk);
      }
    } else {
      LastOperationDecides(s, ops[..n], fk, i);
      OthersUntouched(before, ops[n], fk, OpKey(ops[i], fk));
    }
  }

  lemma {:induction false} UntouchedKeyStays<T(!new)>(s: Store<T>, ops: seq<Op<T>>, fk: T -> Key, k: Key)
    requires forall j :: 0 <= j < |ops| ==> ops[j].stop.Completed? && OpKey(ops[j], fk) != k
    ensures Lookup(PerformAll(s, ops, fk).primary, k) == Lookup(s.primary, k)
  {
    if ops != [] {
      UntouchedKeyStays(s, ops[..|ops| - 1], fk, k);
      OthersUntouched(PerformAll(s, ops[..|ops| - 1], fk), ops[|ops| - 1], fk, k);
    }
  }

  /** A key is dirty from an operation stopped between its writes until one completes. */
  function NextDirty<T>(dirty: set<Key>, op: Op<T>, fk: T -> Key): set<Key> {
    match op.stop
    case BeforeWrites => dirty
    case BetweenWrites => dirty + {OpKey(op, fk)}
    case Completed => dirty - {OpKey(op, fk)}
  }

  function PerformAll<T>(s: Store<T>, ops: seq<Op<T>>, fk: T -> Key): Store<T> {
    if ops == [] then s else Perform(PerformAll(s, ops[..|ops| - 1], fk), ops[|ops| - 1], fk)
  }

  function DirtyAfter<T>(dirty: set<Key>, ops: seq<Op<T>>, fk: T -> Key): set<Key> {
    if ops == [] then dirty else NextDirty(DirtyAfter(dirty, ops[..|ops| - 1], fk), ops[|ops| - 1], fk)
  }

  lemma SaveKeepsAgreement<T(!new)>(s: Store<T>, fk: T -> Key, dirty: set<Key>, item: T, stop: Stop)
    requires AgreesExcept(s, fk, dirty)
    ensures AgreesExcept(Saved(s, item, fk, stop), fk, NextDirty(dirty, Save(item, stop), fk))
  {
    var after, k := Saved(s, item, fk, stop), fk(item);
    if stop.Completed? {
      assert GroupOk(ListOf(s.lists, k.0), k.0, fk);
      UpsertListMembers(ListOf(s.lists, k.0), item, fk);
      assert GroupOk(after.lists[k.0], k.0, fk);
      forall j: Key | j !in dirty - {k} ensures AgreesAt(after, fk, j) {
        if j != k {
          assert AgreesAt(s, fk, j);
        }
      }
    } else {
      forall j: Key | j !in NextDirty(dirty, Save(item, stop), fk) ensures AgreesAt(after, fk, j) {
        assert AgreesAt(s, fk, j);
      }
    }
  }

  lemma RemoveKeepsAgreement<T(!new)>(s: Store<T>, fk: T -> Key, dirty: set<Key>, k: Key, stop: Stop)
    requires AgreesExcept(s, fk, dirty)
    ensures AgreesExcept(Removed(s, k, fk, stop), fk, NextDirty<T>(dirty, Remove(k, stop), fk))
  {
    var after := Removed(s, k, fk, stop);
    if stop.Completed? {
      assert GroupOk(ListOf(s.lists, k.0), k.0, fk);
      WithoutMembers(ListOf(s.lists, k.0), k, fk);
      assert GroupOk(after.lists[k.0], k.0, fk);
      forall j: Key | j !in dirty - {k} ensures AgreesAt(after, fk, j) {
        if j != k {
          assert AgreesAt(s, fk, j);
        }
      }
    } else {
      forall j: Key | j !in NextDirty<T>(dirty, Remove(k, stop), fk) ensures AgreesAt(after, fk, j) {
        assert AgreesAt(s, fk, j);
      }
    }
  }

  /** Over any operations, stopped anywhere, only the keys of stopped ones can disagree. */
  lemma {:induction false} RunKeepsAgreement<T(!new)>(s: Store<T>, fk: T -> Key, dirty: set<Key>, ops: seq<Op<T>>)
    requires AgreesExcept(s, fk, dirty)
    ensures AgreesExcept(PerformAll(s, ops, fk), fk, DirtyAfter(dirty, ops, fk))
  {
    if ops != [] {
      var n := |ops| - 1;
      RunKeepsAgreement(s, fk, dirty, ops[..n]);
      var before, left := PerformAll(s, ops[..n], fk), DirtyAfter(dirty, ops[..n], fk);
      match ops[n] {
        case Save(item, stop) => SaveKeepsAgreement(before, fk, left, item, stop);
        case Remove(k, stop) => RemoveKeepsAgreement(before, fk, left, k, stop);
      }
    }
  }

  /** An operation stopped anywhere and then carried out again restores full agreement,
      whatever other completed operations happened in between. */
  lemma RetryRestores<T(!new)>(s: Store<T>, fk: T -> Key, op: Op<T>, between: seq<Op<T>>)
    requires Agrees(s, fk)
    requires forall i :: 0 <= i < |between| ==> between[i].stop.Completed?
    ensures Agrees(PerformAll(s, [op] + between + [op.(stop := Completed)], fk), fk)
  {
    var again := op.(stop := Completed);
    AgreesIffNoneDirty(s, fk);
    DirtyAfterCompleted({}, [op], between, fk);
    var ops := [op] + between + [again];
    assert ops[..|ops| - 1] == [op] + between;
    assert [op][..0] == [];
    assert DirtyAfter({}, [op], fk) == NextDirty(DirtyAfter({}, [op][..0], fk), op, fk);
    RunKeepsAgreement(s, fk, {}, ops);
    assert DirtyAfter({}, ops, fk) == {};
    AgreesIffNoneDirty(PerformAll(s, ops, fk), fk);
  }

  lemma {:induction false} DirtyAfterCompleted<T>(dirty: set<Key>, before: seq<Op<T>>, ops: seq<Op<T>>, fk: T -> Key)
    requires forall i :: 0 <= i < |ops| ==> ops[i].stop.Completed?
    ensures DirtyAfter(dirty, before + ops, fk) <= DirtyAfter(dirty, before, fk)
  {
    if ops == [] {
      assert before + ops == before;
    } else {
      var n := |ops| - 1;
      DirtyAfterCompleted(dirty, before, ops[..n], fk);
      assert (before + ops)[..|before + ops| - 1] == before + ops[..n];
    }
  }

  /** A save stopped between its writes leaves the copies apart exactly if it saves something
      new. */
  lemma StoppedSaveDisagreesIff<T(!new)>(s: Store<T>, fk: T -> Key, item: T)
    requires Agrees(s, fk)
    ensures !Agrees(Saved(s, item, fk, BetweenWrites), fk) <==> Lookup(s.primary, fk(item)) != Some(item)
  {
    var after := Saved(s, item, fk, BetweenWrites);
    if Lookup(s.primary, fk(item)) == Some(item) {
      assert after.primary == s.primary;
    } else {
      AgreesIffNoneDirty(s, fk);
      assert AgreesAt(s, fk, fk(item));
      assert item !in ListOf(after.lists, fk(item).0);
      assert !AgreesAt(after, fk, fk(item));
      AgreesIffNoneDirty(after, fk);
    }
  }

  /** A removal stopped between its writes does so exactly if there was something to remove. */
  lemma StoppedRemovalDisagreesIff<T(!new)>(s: Store<T>, fk: T -> Key, k: Key)
    requires Agrees(s, fk)
    ensures !Agrees(Removed(s, k, fk, BetweenWrites), fk) <==> k in s.primary
  {
    var after := Removed(s, k, fk, BetweenWrites);
    if k !in s.primary {
      assert after.primary == s.primary;
    } else {
      AgreesIffNoneDirty(s, fk);
      assert AgreesAt(s, fk, k);
      assert s.primary[k] in ListOf(after.lists, k.0);
      assert !AgreesAt(after, fk, k);
      AgreesIffNoneDirty(after, fk);
    }
  }

  // ----- the storage -----

  predicate MessageDescLe(left: ChatMessage, right: ChatMessage) {
    right.seqNo < left.seqNo
    || (right.seqNo == left.seqNo
        && (right.sendTime < left.sendTime
            || (right.sendTime == left.sendTime && StringLe(right.clientMsgId, left.clientMsgId))))
  }

  lemma DescOrder()
    ensures TotalPreorder(MessageDescLe)
  {
    MessageOrder();
    assert forall a, b :: MessageDescLe(a, b) <==> MessageLe(b, a);
  }

  /** Sorted, newest first, with no two messages in the same place. */
  ghost predicate Strictly(newestFirst: seq<ChatMessage>) {
    Sorted(MessageDescLe, newestFirst) && NoTies(MessageDescLe, newestFirst)
  }

  /** `page` is the page asked for of a list that fits a 32-bit index. */
  ghost predicate IsPageOf(page: seq<ChatMessage>, newestFirst: seq<ChatMessage>, pagination: Pagination) {
    var p := pagination.Normalized();
    |newestFirst| <= WASM_USIZE_MAX ==> page == Page(newestFirst, p.pageNumber as nat, p.showNumber as nat)
  }

  lemma PageOfSorted(history: seq<ChatMessage>, newestFirst: seq<ChatMessage>, pagination: Pagination)
    requires multiset(newestFirst) == multiset(history) && Strictly(newestFirst)
    ensures IsPageOf(Paginate(SortBy(history, MessageDescLe), pagination, WASM_USIZE_MAX), newestFirst, pagination)
  {
    DescOrder();
    SortBySorted(history, MessageDescLe);
    SortedUnique(newestFirst, SortBy(history, MessageDescLe), MessageDescLe);
    if |newestFirst| <= WASM_USIZE_MAX {
      PaginateIsPage(newestFirst, pagination, WASM_USIZE_MAX);
    }
  }

  lemma AgreedListing(s: Store<ChatMessage>, conversationId: string, newestFirst: seq<ChatMessage>)
    requires Agrees(s, MessageKey) && Sorted(MessageDescLe, newestFirst)
    requires Enumerates(newestFirst, s.primary, MessageKey, KeysUnder(conversationId))
    ensures multiset(newestFirst) == multiset(ListOf(s.lists, conversationId)) && Strictly(newestFirst)
  {
    HashMaps.ListingsAgree(newestFirst, ListOf(s.lists, conversationId), s.primary, MessageKey, KeysUnder(conversationId));
    ConversationHasNoTies(newestFirst, s.primary, conversationId);
    assert forall a, b :: MessageDescLe(a, b) <==> MessageLe(b, a);
  }

  /** Newest first, written out: by sequence number, then time, then id, all downwards. */
  lemma NewestFirstIff(items: seq<ChatMessage>)
    ensures Sorted(MessageDescLe, items) <==> forall i, j :: 0 <= i < j < |items| ==>
      var a, b := items[i], items[j];
      || a.seqNo > b.seqNo
      || (a.seqNo == b.seqNo && a.sendTime > b.sendTime)
      || (a.seqNo == b.seqNo && a.sendTime == b.sendTime && StringLe(b.clientMsgId, a.clientMsgId))
  {
  }

  class IndexedDbStorage {
    var messages: map<Key, ChatMessage>
    var histories: map<string, seq<ChatMessage>>
    var conversations: map<Key, ConversationInfo>
    var ownerConversations: map<string, seq<ConversationInfo>>

    ghost function MessageStore(): Store<ChatMessage>
      reads this
    {
      Store(messages, histories)
    }

    ghost function ConversationStore(): Store<ConversationInfo>
      reads this
    {
      Store(conversations, ownerConversations)
    }

    constructor ()
      ensures MessageStore() == Store(map[], map[]) && ConversationStore() == Store(map[], map[])
    {
      messages, histories := map[], map[];
      conversations, ownerConversations := map[], map[];
    }

    /** Saves a message.  `stop` tells which of the storage requests fails, if one does. */
    method SaveMessage(m: ChatMessage, stop: Stop) returns (r: Result<Unit>)
      modifies this
      ensures ConversationStore() == old(ConversationStore())
      ensures m.conversationId == "" || m.clientMsgId == "" ==>
        r == Err(Args) && MessageStore() == old(MessageStore())
      ensures m.conversationId != "" && m.clientMsgId != "" ==>
        && (r.Ok? <==> stop.Completed?)
        && MessageStore() == Saved(old(MessageStore()), m, MessageKey, stop)
        && (r.Ok? ==> Lookup(messages, (m.conversationId, m.clientMsgId)) == Some(m) && m in ListOf(histories, m.conversationId))
    {
      if m.conversationId == "" || m.clientMsgId == "" {
        return Err(Args);
      }
      if stop.BeforeWrites? {
        return Err(SdkInternal);
      }
      messages := messages[MessageKey(m) := m];
      if stop.BetweenWrites? {
        return Err(SdkInternal);
      }
      var history := ListOf(histories, m.conversationId);
      var updated := UpsertInto(history, m, MessageKey);
      UpsertListHolds(history, m, MessageKey);
      histories := histories[m.conversationId := updated];
      return Ok(Unit);
    }

    /** One page of a conversation, newest message first.  The arrangement of the stored list
        does not show; and once the list agrees with the primary store, the page is that of
        the primary store's messages of the conversation. */
    method LoadHistory(conversationId: string, pagination: Pagination) returns (page: seq<ChatMessage>)
      ensures forall newestFirst ::
        multiset(newestFirst) == multiset(ListOf(histories, conversationId)) && Strictly(newestFirst) ==>
        IsPageOf(page, newestFirst, pagination)
      ensures Agrees(MessageStore(), MessageKey) ==> forall newestFirst ::
        Enumerates(newestFirst, messages, MessageKey, KeysUnder(conversationId)) && Sorted(MessageDescLe, newestFirst) ==>
        IsPageOf(page, newestFirst, pagination)
    {
      var history := ListOf(histories, conversationId);
      page := Paginate(SortBy(history, MessageDescLe), pagination, WASM_USIZE_MAX);
      forall newestFirst | multiset(newestFirst) == multiset(history) && Strictly(newestFirst)
        ensures IsPageOf(page, newestFirst, pagination)
      {
        PageOfSorted(history, newestFirst, pagination);
      }
      if Agrees(MessageStore(), MessageKey) {
        forall newestFirst |
          Enumerates(newestFirst, messages, MessageKey, KeysUnder(conversationId)) && Sorted(MessageDescLe, newestFirst)
          ensures IsPageOf(page, newestFirst, pagination)
        {
          AgreedListing(MessageStore(), conversationId, newestFirst);
          PageOfSorted(history, newestFirst, pagination);
        }
      }
    }

    method SaveConversation(c: ConversationInfo, stop: Stop) returns (r: Result<Unit>)
      modifies this
      ensures MessageStore() == old(MessageStore())
      ensures c.ownerUserId == "" || c.conversationId == "" ==>
        r == Err(Args) && ConversationStore() == old(ConversationStore())
      ensures c.ownerUserId != "" && c.conversationId != "" ==>
        && (r.Ok? <==> stop.Completed?)
        && ConversationStore() == Saved(old(ConversationStore()), c, ConversationKey, stop)
        && (r.Ok? ==>
              && Lookup(conversations, (c.ownerUserId, c.conversationId)) == Some(c)
              && c in ListOf(ownerConversations, c.ownerUserId))
    {
      if c.ownerUserId == "" || c.conversationId == "" {
        return Err(Args);
      }
      if stop.BeforeWrites? {
        return Err(SdkInternal);
      }
      conversations := conversations[ConversationKey(c) := c];
      if stop.BetweenWrites? {
        return Err(SdkInternal);
      }
      var updated := UpsertInto(ListOf(ownerConversations, c.ownerUserId), c, ConversationKey);
      UpsertListHolds(ListOf(ownerConversations, c.ownerUserId), c, ConversationKey);
      ownerConversations := ownerConversations[c.ownerUserId := updated];
      return Ok(Unit);
    }

    method RemoveConversation(owner: string, conversationId: string, stop: Stop) returns (r: Result<Unit>)
      modifies this
      ensures MessageStore() == old(MessageStore())
      ensures owner == "" || conversationId == "" ==>
        r == Err(Args) && ConversationStore() == old(ConversationStore())
      ensures owner != "" && conversationId != "" ==>
        && (r.Ok? <==> stop.Completed?)
        && ConversationStore() == Removed(old(ConversationStore()), (owner, conversationId), ConversationKey, stop)
    {
      if owner == "" || conversationId == "" {
        return Err(Args);
      }
      if stop.BeforeWrites? {
        return Err(SdkInternal);
      }
      conversations := conversations - {(owner, conversationId)};
      if stop.BetweenWrites? {
        return Err(SdkInternal);
      }
      var rest := Without(ListOf(ownerConversations, owner), conversationId, ConversationKey);
      ownerConversations := ownerConversations[owner := rest];
      return Ok(Unit);
    }
  }

  /** Overwriting the first item with the id is the upsert. */
  lemma {:induction false} UpsertFound<T>(items: seq<T>, i: nat, item: T, fk: T -> Key)
    requires i < |items| && fk(items[i]).1 == fk(item).1
    requires forall j :: 0 <= j < i ==> fk(items[j]).1 != fk(item).1
    ensures UpsertList(items, item, fk) == items[i := item]
  {
    if i > 0 {
      UpsertFound(items[1..], i - 1, item, fk);
    }
  }

  lemma {:induction false} UpsertMissing<T>(items: seq<T>, item: T, fk: T -> Key)
    requires forall j :: 0 <= j < |items| ==> fk(items[j]).1 != fk(item).1
    ensures UpsertList(items, item, fk) == items + [item]
  {
    if items != [] {
      UpsertMissing(items[1..], item, fk);
    }
  }

  method UpsertInto<T>(items: seq<T>, item: T, fk: T -> Key) returns (updated: seq<T>)
    ensures updated == UpsertList(items, item, fk)
  {
    for i := 0 to |items|
      invariant forall j :: 0 <= j < i ==> fk(items[j]).1 != fk(item).1
    {
      if fk(items[i]).1 == fk(item).1 {
        UpsertFound(items, i, item, fk);
        return items[i := item];
      }
    }
    UpsertMissing(items, item, fk);
    return items + [item];
  }

  // ----- both backends show the same history -----

  /** For the same stored messages the memory service and the browser storage return the
      same page of history, however their maps and lists happen to be arranged. */
  lemma HistoriesAgree(s: Store<ChatMessage>, messages: map<Key, ChatMessage>, conversationId: string,
                       listing: seq<ChatMessage>, pagination: Pagination)
    requires Agrees(s, MessageKey)
    requires Enumerates(listing, messages, MessageKey, KeysUnder(conversationId))
    requires forall k: Key :: k.0 == conversationId ==> Lookup(messages, k) == Lookup(s.primary, k)
    requires |listing| <= WASM_USIZE_MAX
    ensures Paginate(Reverse(SortBy(listing, MessageLe)), pagination, NATIVE_USIZE_MAX)
         == Paginate(SortBy(ListOf(s.lists, conversationId), MessageDescLe), pagination, WASM_USIZE_MAX)
  {
    var list := ListOf(s.lists, conversationId);
    assert Enumerates(list, s.primary, MessageKey, KeysUnder(conversationId));
    SameScope(listing, messages, s.primary, conversationId);
    HashMaps.ListingsAgree(listing, list, s.primary, MessageKey, KeysUnder(conversationId));
    MessageOrder();
    ConversationHasNoTies(listing, messages, conversationId);
    ReverseOfSort(listing, list, MessageLe, MessageDescLe);
    SameMembers(SortBy(list, MessageDescLe), listing);
    PaginateIsPage(Reverse(SortBy(listing, MessageLe)), pagination, NATIVE_USIZE_MAX);
    PaginateIsPage(SortBy(list, MessageDescLe), pagination, WASM_USIZE_MAX);
  }

  lemma SameScope(listing: seq<ChatMessage>, a: map<Key, ChatMessage>, b: map<Key, ChatMessage>, conversationId: string)
    requires Enumerates(listing, a, MessageKey, KeysUnder(conversationId))
    requires forall k: Key :: k.0 == conversationId ==> Lookup(a, k) == Lookup(b, k)
    ensures Enumerates(listing, b, MessageKey, KeysUnder(conversationId))
  {
    forall x | x in listing ensures MessageKey(x) in b && b[MessageKey(x)] == x {
      assert Lookup(a, MessageKey(x)) == Lookup(b, MessageKey(x));
    }
    forall k: Key | k in b && KeysUnder(conversationId)(k) ensures b[k] in listing {
      assert Lookup(a, k) == Lookup(b, k);
    }
  }
}
