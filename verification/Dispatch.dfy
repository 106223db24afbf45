/** Folding a batch of messages into the conversations and telling listeners which of them
    are new and which have changed. */
module Dispatch {
  import opened Common
  import Sorting
  import SyncDiff
  import opened Message
  import opened Conversation
  import opened ConversationFold
  import opened OrderedMap

  /** The conversations so far, and the two lists that will be announced. */
  datatype Batch = Batch(conversations: Conversations,
                         created: OMap<ConversationInfo>, changed: OMap<ConversationInfo>)

  function Start(conversations: Conversations): Batch {
    Batch(conversations, [], [])
  }

  /** One message of the batch. */
  function BatchStep(b: Batch, owner: string, m: ChatMessage): Batch
    requires FromMessage(owner, m).Ok? && owner != ""
  {
    var id, key := m.conversationId, (owner, m.conversationId);
    var existed := key in b.conversations;
    var after := FoldInto(b.conversations, owner, m);
    var c := after[key];
    if existed then
      if Get(b.created, id).Some? then Batch(after, Put(b.created, id, c), b.changed)
      else Batch(after, b.created, Put(b.changed, id, c))
    else
      Batch(after, Put(b.created, id, c), Del(b.changed, id))
  }

  function FoldBatch(conversations: Conversations, owner: string, batch: seq<ChatMessage>): Batch
    requires AllRoutable(owner, batch) && owner != ""
  {
    if batch == [] then Start(conversations) else
    BatchStep(FoldBatch(conversations, owner, batch[..|batch| - 1]), owner, batch[|batch| - 1])
  }

  predicate Touches(batch: seq<ChatMessage>, id: string) {
    exists i :: 0 <= i < |batch| && batch[i].conversationId == id
  }

  /** Announced under `id`: the stored conversation, if the batch touched it and it was there
      before, or was not, as asked. */
  function Announced(conversations: Conversations, after: Conversations, owner: string,
                     batch: seq<ChatMessage>, id: string, before: bool): Option<ConversationInfo>
  {
    if Touches(batch, id) && ((owner, id) in conversations) == before then Lookup(after, (owner, id)) else None
  }

  lemma TouchesSnoc(batch: seq<ChatMessage>, m: ChatMessage, id: string)
    ensures Touches(batch + [m], id) <==> Touches(batch, id) || m.conversationId == id
  {
    if Touches(batch, id) {
      var i :| 0 <= i < |batch| && batch[i].conversationId == id;
      assert (batch + [m])[i] == batch[i];
    }
    assert (batch + [m])[|batch|] == m;
    if Touches(batch + [m], id) && m.conversationId != id {
      var i :| 0 <= i < |batch + [m]| && (batch + [m])[i].conversationId == id;
      assert batch[i].conversationId == id;
    }
  }

  /** What the batch so far says of one conversation. */
  predicate EntryOk(conversations: Conversations, owner: string, batch: seq<ChatMessage>, b: Batch, id: string) {
    && Get(b.created, id) == Announced(conversations, b.conversations, owner, batch, id, false)
    && Get(b.changed, id) == Announced(conversations, b.conversations, owner, batch, id, true)
    && ((owner, id) in b.conversations <==> (owner, id) in conversations || Touches(batch, id))
  }

  /** The batch so far, in terms of the conversations before and now. */
  ghost predicate BatchOk(conversations: Conversations, owner: string, batch: seq<ChatMessage>, b: Batch) {
    && Ordered(b.created) && Ordered(b.changed)
    && forall id :: EntryOk(conversations, owner, batch, b, id)
  }

  lemma EntryStepKeeps(conversations: Conversations, owner: string, batch: seq<ChatMessage>, b: Batch, m: ChatMessage,
                       x: string)
    requires owner != "" && FromMessage(owner, m).Ok?
    requires Ordered(b.created) && Ordered(b.changed)
    requires EntryOk(conversations, owner, batch, b, x)
    ensures EntryOk(conversations, owner, batch + [m], BatchStep(b, owner, m), x)
  {
    var id := m.conversationId;
    var c := FoldInto(b.conversations, owner, m)[(owner, id)];
    TouchesSnoc(batch, m, x);
    FoldIntoEntry(b.conversations, owner, m, (owner, x));
    PutGet(b.created, id, c, x);
    PutGet(b.changed, id, c, x);
    DelGet(b.changed, id, x);
  }

  lemma BatchStepKeeps(conversations: Conversations, owner: string, batch: seq<ChatMessage>, b: Batch, m: ChatMessage)
    requires owner != "" && FromMessage(owner, m).Ok?
    requires BatchOk(conversations, owner, batch, b)
    ensures BatchOk(conversations, owner, batch + [m], BatchStep(b, owner, m))
  {
    var id := m.conversationId;
    var c := FoldInto(b.conversations, owner, m)[(owner, id)];
    PutOrdered(b.created, id, c);
    PutOrdered(b.changed, id, c);
    DelOrdered(b.changed, id);
    forall x ensures EntryOk(conversations, owner, batch + [m], BatchStep(b, owner, m), x) {
      EntryStepKeeps(conversations, owner, batch, b, m, x);
    }
  }

  lemma {:induction false} BatchFolds(conversations: Conversations, owner: string, batch: seq<ChatMessage>)
    requires AllRoutable(owner, batch) && owner != ""
    ensures FoldBatch(conversations, owner, batch).conversations == FoldAll(conversations, owner, batch)
  {
    if batch != [] {
      BatchFolds(conversations, owner, batch[..|batch| - 1]);
    }
  }

  lemma StartOk(conversations: Conversations, owner: string)
    ensures BatchOk(conversations, owner, [], Start(conversations))
  {
  }

  /** Whatever the batch, each conversation it touches is announced exactly once: as new if
      it was absent before, as changed if it was present, and with its final stored value. */
  lemma {:induction false} BatchPartition(conversations: Conversations, owner: string, batch: seq<ChatMessage>)
    requires AllRoutable(owner, batch) && owner != ""
    ensures BatchOk(conversations, owner, batch, FoldBatch(conversations, owner, batch))
  {
    if batch == [] {
      StartOk(conversations, owner);
    } else {
      var n := |batch| - 1;
      assert AllRoutable(owner, batch[..n]);
      BatchPartition(conversations, owner, batch[..n]);
      BatchStepKeeps(conversations, owner, batch[..n], FoldBatch(conversations, owner, batch[..n]), batch[n]);
      assert batch == batch[..n] + [batch[n]];
    }
  }

  // ----- who sees a message -----

  predicate VisibleTo(owner: string, m: ChatMessage) {
    m.sendId == owner || m.recvId == owner || m.groupId != ""
  }

  /** A message the owner may see is filed under a conversation that is not the owner's exactly
      if it carries a group but went between two others, whose ids do not happen to join to
      the text of the owner's. */
  lemma FiledElsewhereIff(owner: string, m: ChatMessage)
    requires ValidMessage(m) && owner != "" && VisibleTo(owner, m)
    ensures FromMessage(owner, m).Ok?
    ensures IdSeenBy(owner, FromMessage(owner, m).value) != Ok(m.conversationId) <==>
      OneToOne(m.sessionType) && !IsEnd(owner, m) && !Confused(owner, m.sendId, m.sendId, m.recvId)
    ensures IdSeenBy(owner, FromMessage(owner, m).value) != Ok(m.conversationId) ==> m.groupId != ""
  {
    OpensOwnConversationIff(owner, m);
  }

  /** "u" sees a message from "a" to "b" because it carries a group, and files it as a
      conversation with "a" under the id of "a" and "b". */
  lemma FiledElsewhereExample()
    ensures var m := ChatMessage("c1", None, "si_a_b", "a", "b", "g", Single, Text, TextContent("hi"), false,
                                 SendSuccess, 1, 1, 1, "", "", "", false);
      && ValidMessage(m) && VisibleTo("u", m) && FromMessage("u", m).Ok?
      && FromMessage("u", m).value.userId == "a"
      && IdSeenBy("u", FromMessage("u", m).value) == Ok("si_a_u")
  {
    assert "a" + "_" + "b" == "a_b" && "a" + "_" + "u" == "a_u";
    assert !Sorting.StringLe("u", "a") && Sorting.StringLe("a", "b");
    assert "si_" + "a_b" == "si_a_b" && "si_" + "a_u" == "si_a_u";
  }

  /** Two messages between the same two others, one each way: each opens a different record. */
  lemma OpenDifferentExample()
    ensures var m := ChatMessage("c1", None, "si_a_b", "a", "b", "g", Single, Text, TextContent("hi"), false,
                                 SendSuccess, 1, 1, 1, "", "", "", false);
      var n := m.(sendId := "b", recvId := "a");
      && ValidMessage(m) && ValidMessage(n) && VisibleTo("u", m) && VisibleTo("u", n)
      && FromMessage("u", m) != FromMessage("u", n)
  {
    assert "a" + "_" + "b" == "a_b" && "si_" + "a_b" == "si_a_b";
    assert Sorting.StringLe("a", "b") && !Sorting.StringLe("b", "a");
  }

  lemma ValidRoutable(owner: string, batch: seq<ChatMessage>)
    requires owner != "" && forall i :: 0 <= i < |batch| ==> ValidMessage(batch[i])
    ensures AllRoutable(owner, batch)
  {
    forall i | 0 <= i < |batch| ensures FromMessage(owner, batch[i]).Ok? {
      ValidHasTarget(owner, batch[i]);
    }
  }

  lemma {:induction false} FoldAllKeyed(conversations: Conversations, owner: string, batch: seq<ChatMessage>)
    requires SyncDiff.Keyed(conversations, ConversationKey)
    ensures SyncDiff.Keyed(FoldAll(conversations, owner, batch), ConversationKey)
  {
    if batch != [] {
      FoldAllKeyed(conversations, owner, batch[..|batch| - 1]);
    }
  }

  /** What is announced once a batch is folded: the new conversations, the changed ones, and
      the owner's unread total if it moved. */
  datatype DispatchBatch = DispatchBatch(created: seq<ConversationInfo>, changed: seq<ConversationInfo>,
                                         totalUnread: Option<u32>)

  ghost function Announcement(conversations: Conversations, owner: string, batch: seq<ChatMessage>): DispatchBatch
    requires AllRoutable(owner, batch) && owner != ""
  {
    var b := FoldBatch(conversations, owner, batch);
    var before, after := Wrap32(TotalUnread(conversations, owner)), Wrap32(TotalUnread(b.conversations, owner));
    DispatchBatch(Values(b.created), Values(b.changed), if after != before then Some(after) else None)
  }

  lemma ValuesMember<V>(m: OMap<V>, v: V)
    requires Ordered(m)
    ensures v in Values(m) <==> exists k :: Get(m, k) == Some(v)
  {
    if v in Values(m) {
      var i :| 0 <= i < |m| && m[i].1 == v;
      GetMember(m, m[i].0);
      assert Get(m, m[i].0) == Some(v);
    }
    if k :| Get(m, k) == Some(v) {
      GetMember(m, k);
      var i :| 0 <= i < |m| && m[i].0 == k;
      assert Values(m)[i] == v;
    }
  }

  /** `listed` holds, once each and in the order of their ids, the final form of exactly the
      touched conversations that were, or were not, there before. */
  ghost predicate ListsTouched(listed: seq<ConversationInfo>, conversations: Conversations, after: Conversations,
                               owner: string, batch: seq<ChatMessage>, before: bool)
  {
    && NoDup(listed)
    && (forall i, j :: 0 <= i < j < |listed| ==> Sorting.StringLe(listed[i].conversationId, listed[j].conversationId))
    && (forall c :: c in listed <==> exists id :: Announced(conversations, after, owner, batch, id, before) == Some(c))
  }

  lemma ListedOnce(conversations: Conversations, m: OMap<ConversationInfo>, owner: string)
    requires SyncDiff.Keyed(conversations, ConversationKey) && Ordered(m)
    requires forall id :: Get(m, id).Some? ==> Get(m, id) == Lookup(conversations, (owner, id))
    ensures forall i :: 0 <= i < |m| ==> m[i].1.conversationId == m[i].0
    ensures NoDup(Values(m))
    ensures forall i, j :: 0 <= i < j < |m| ==> Sorting.StringLe(Values(m)[i].conversationId, Values(m)[j].conversationId)
  {
    forall i | 0 <= i < |m| ensures m[i].1.conversationId == m[i].0 {
      GetMember(m, m[i].0);
      assert Get(m, m[i].0) == Lookup(conversations, (owner, m[i].0));
    }
  }

  lemma ListedTouched(conversations: Conversations, after: Conversations, owner: string, batch: seq<ChatMessage>,
                      m: OMap<ConversationInfo>, before: bool)
    requires SyncDiff.Keyed(after, ConversationKey) && Ordered(m)
    requires forall id :: Get(m, id) == Announced(conversations, after, owner, batch, id, before)
    ensures ListsTouched(Values(m), conversations, after, owner, batch, before)
  {
    ListedOnce(after, m, owner);
    forall c ensures c in Values(m) <==> exists id :: Get(m, id) == Some(c) {
      ValuesMember(m, c);
    }
  }

  lemma BatchLists(conversations: Conversations, owner: string, batch: seq<ChatMessage>, b: Batch)
    requires BatchOk(conversations, owner, batch, b) && SyncDiff.Keyed(b.conversations, ConversationKey)
    ensures ListsTouched(Values(b.created), conversations, b.conversations, owner, batch, false)
    ensures ListsTouched(Values(b.changed), conversations, b.conversations, owner, batch, true)
  {
    forall id
      ensures Get(b.created, id) == Announced(conversations, b.conversations, owner, batch, id, false)
      ensures Get(b.changed, id) == Announced(conversations, b.conversations, owner, batch, id, true)
    {
      assert EntryOk(conversations, owner, batch, b, id);
    }
    ListedTouched(conversations, b.conversations, owner, batch, b.created, false);
    ListedTouched(conversations, b.conversations, owner, batch, b.changed, true);
  }

  /** What a batch announces, told without the loop that computes it. */
  lemma AnnouncementExact(conversations: Conversations, owner: string, batch: seq<ChatMessage>)
    requires AllRoutable(owner, batch) && owner != "" && SyncDiff.Keyed(conversations, ConversationKey)
    ensures var a, after := Announcement(conversations, owner, batch), FoldAll(conversations, owner, batch);
      var total, newTotal := Wrap32(TotalUnread(conversations, owner)), Wrap32(TotalUnread(after, owner));
      && ListsTouched(a.created, conversations, after, owner, batch, false)
      && ListsTouched(a.changed, conversations, after, owner, batch, true)
      && a.totalUnread == if newTotal == total then None else Some(newTotal)
  {
    BatchFolds(conversations, owner, batch);
    BatchPartition(conversations, owner, batch);
    FoldAllKeyed(conversations, owner, batch);
    BatchLists(conversations, owner, batch, FoldBatch(conversations, owner, batch));
  }

  /** Folding never lowers the unread total, and raises it by one a message at most. */
  lemma {:induction false} TotalGrows(conversations: Conversations, owner: string, batch: seq<ChatMessage>)
    ensures var total, newTotal := TotalUnread(conversations, owner), TotalUnread(FoldAll(conversations, owner, batch), owner);
      total <= newTotal <= total + |batch|
  {
    if batch != [] {
      var n := |batch| - 1;
      var before := FoldAll(conversations, owner, batch[..n]);
      TotalGrows(conversations, owner, batch[..n]);
      var arrival := Arrival(before, owner, batch[n]);
      if arrival.Ok? {
        TotalUnreadUpdate(before, owner, (owner, batch[n].conversationId), Fold(owner, arrival.value, batch[n]));
      }
    }
  }

  lemma AnnouncedTotal(conversations: Conversations, owner: string, batch: seq<ChatMessage>)
    requires AllRoutable(owner, batch) && owner != ""
    ensures var total, newTotal := TotalUnread(conversations, owner), TotalUnread(FoldAll(conversations, owner, batch), owner);
      Announcement(conversations, owner, batch).totalUnread
        == if Wrap32(newTotal) == Wrap32(total) then None else Some(Wrap32(newTotal))
  {
    BatchFolds(conversations, owner, batch);
  }

  /** What an announced total says of the true ones, after `count` messages. */
  predicate ToldExactly(told: Option<u32>, total: nat, newTotal: nat, count: nat)
    requires total <= newTotal
  {
    && (told.Some? <==> (newTotal - total) % TWO_TO_32 != 0)
    && ((told.Some? <==> newTotal != total) <==> newTotal == total || (newTotal - total) % TWO_TO_32 != 0)
    && (count <= U32_MAX ==> (told.Some? <==> newTotal != total))
    && (told.Some? ==> (told.value as nat == newTotal <==> newTotal <= U32_MAX))
  }

  lemma WrappedIsTold(told: Option<u32>, total: nat, newTotal: nat, count: nat)
    requires told == if Wrap32(newTotal) == Wrap32(total) then None else Some(Wrap32(newTotal))
    requires total <= newTotal <= total + count
    ensures ToldExactly(told, total, newTotal, count)
  {
    WrapMovesIff(total, newTotal);
    WrapFits(newTotal);
  }

  /** A total is announced exactly if it grew by no multiple of 2^32, so the announcement is
      true exactly if the growth is zero or no such multiple, as it is for every batch of fewer
      messages; and the announced number is the true total exactly if that fits in 32 bits. */
  lemma TotalAnnouncedIff(conversations: Conversations, owner: string, batch: seq<ChatMessage>)
    requires AllRoutable(owner, batch) && owner != ""
    ensures TotalUnread(conversations, owner) <= TotalUnread(FoldAll(conversations, owner, batch), owner)
    ensures ToldExactly(Announcement(conversations, owner, batch).totalUnread, TotalUnread(conversations, owner),
                        TotalUnread(FoldAll(conversations, owner, batch), owner), |batch|)
  {
    AnnouncedTotal(conversations, owner, batch);
    TotalGrows(conversations, owner, batch);
    WrappedIsTold(Announcement(conversations, owner, batch).totalUnread, TotalUnread(conversations, owner),
                  TotalUnread(FoldAll(conversations, owner, batch), owner), |batch|);
  }

  /** A text message from "b" to "a", or from "c" to "a". */
  function UnreadSample(sender: string, id: string): ChatMessage {
    ChatMessage("c1", None, id, sender, "a", "", Single, Text, TextContent("hi"), false, SendSuccess,
                1, 1, 1, "", "", "", false)
  }

  function Repeat(m: ChatMessage, n: nat): seq<ChatMessage> {
    seq(n, i => m)
  }

  lemma {:induction false} RepeatedUnread(n: nat)
    requires n <= U32_MAX
    ensures var after := FoldAll(map[], "a", Repeat(UnreadSample("b", "si_a_b"), n));
      && (forall k :: k in after ==> k == ("a", "si_a_b"))
      && (n > 0 ==> ("a", "si_a_b") in after && after[("a", "si_a_b")].unreadCount as nat == n)
    ensures TotalUnread(FoldAll(map[], "a", Repeat(UnreadSample("b", "si_a_b"), n)), "a") == n
  {
    var m := UnreadSample("b", "si_a_b");
    if n == 0 {
      assert OwnedKeys(FoldAll(map[], "a", Repeat(m, 0)), "a") == {};
    } else {
      RepeatedUnread(n - 1);
      assert Repeat(m, n)[..n - 1] == Repeat(m, n - 1);
      var before := FoldAll(map[], "a", Repeat(m, n - 1));
      TotalUnreadUpdate(before, "a", ("a", "si_a_b"), Fold("a", Arrival(before, "a", m).value, m));
    }
  }

  lemma OneMoreSender(before: Conversations)
    requires ("a", "si_a_c") !in before
    ensures TotalUnread(FoldInto(before, "a", UnreadSample("c", "si_a_c")), "a") == TotalUnread(before, "a") + 1
  {
    var m := UnreadSample("c", "si_a_c");
    TotalUnreadUpdate(before, "a", ("a", "si_a_c"), Fold("a", Arrival(before, "a", m).value, m));
  }

  /** 2^32 - 1 messages from "b" and one from "c" raise the total from 0 to 2^32, and nothing
      is announced. */
  lemma LostTotalExample()
    ensures var batch := Repeat(UnreadSample("b", "si_a_b"), U32_MAX) + [UnreadSample("c", "si_a_c")];
      && AllRoutable("a", batch) && TotalUnread(map[], "a") == 0
      && TotalUnread(FoldAll(map[], "a", batch), "a") == TWO_TO_32
      && Announcement(map[], "a", batch).totalUnread == None
  {
    var many, last := Repeat(UnreadSample("b", "si_a_b"), U32_MAX), UnreadSample("c", "si_a_c");
    var batch := many + [last];
    RepeatedUnread(U32_MAX);
    OneMoreSender(FoldAll(map[], "a", many));
    assert batch[..|batch| - 1] == many && batch[|batch| - 1] == last;
    RepeatedUnread(0);
    assert Repeat(UnreadSample("b", "si_a_b"), 0) == [];
    TotalAnnouncedIff(map[], "a", batch);
  }

  lemma QuietMessageKeepsTotal(conversations: Conversations, owner: string, m: ChatMessage)
    requires m.sendId == owner || m.isRead || m.revoked
    ensures TotalUnread(FoldInto(conversations, owner, m), owner) == TotalUnread(conversations, owner)
    ensures forall k :: k in conversations ==>
      k in FoldInto(conversations, owner, m) && FoldInto(conversations, owner, m)[k].unreadCount == conversations[k].unreadCount
    ensures forall k :: k in FoldInto(conversations, owner, m) && k !in conversations ==>
      FoldInto(conversations, owner, m)[k].unreadCount == 0
  {
    var arrival := Arrival(conversations, owner, m);
    if arrival.Ok? {
      TotalUnreadUpdate(conversations, owner, (owner, m.conversationId), Fold(owner, arrival.value, m));
    }
  }

  /** Messages that are the owner's own, read already or revoked move neither the unread total
      nor the count of any conversation, and open new ones with a count of zero. */
  lemma {:induction false} QuietMessagesKeepTotal(conversations: Conversations, owner: string, batch: seq<ChatMessage>)
    requires forall i :: 0 <= i < |batch| ==> batch[i].sendId == owner || batch[i].isRead || batch[i].revoked
    ensures var after := FoldAll(conversations, owner, batch);
      && TotalUnread(after, owner) == TotalUnread(conversations, owner)
      && (forall k :: k in conversations ==> k in after && after[k].unreadCount == conversations[k].unreadCount)
      && (forall k :: k in after && k !in conversations ==> after[k].unreadCount == 0)
  {
    if batch != [] {
      var n := |batch| - 1;
      QuietMessagesKeepTotal(conversations, owner, batch[..n]);
      QuietMessageKeepsTotal(FoldAll(conversations, owner, batch[..n]), owner, batch[n]);
    }
  }

  /** The owner's own messages never move the owner's unread total. */
  lemma OwnMessagesKeepTotal(conversations: Conversations, owner: string, batch: seq<ChatMessage>)
    requires forall i :: 0 <= i < |batch| ==> batch[i].sendId == owner
    ensures TotalUnread(FoldAll(conversations, owner, batch), owner) == TotalUnread(conversations, owner)
  {
    QuietMessagesKeepTotal(conversations, owner, batch);
  }

  /** Folds a batch of valid messages into the conversations.  For them nothing can fail. */
  method ApplyMessagesToConversations(service: ConversationService, owner: string, batch: seq<ChatMessage>)
    returns (announcement: DispatchBatch)
    requires service.Valid() && owner != ""
    requires AllRoutable(owner, batch)
    requires forall i :: 0 <= i < |batch| ==> batch[i].conversationId != ""
    modifies service
    ensures service.Valid()
    ensures service.conversations == FoldAll(old(service.conversations), owner, batch)
    ensures announcement == Announcement(old(service.conversations), owner, batch)
  {
    ghost var start := service.conversations;
    var previousTotal :- assert service.TotalUnreadCount(owner);
    var created: OMap<ConversationInfo> := [];
    var changed: OMap<ConversationInfo> := [];
    for i := 0 to |batch|
      invariant service.Valid()
      invariant Batch(service.conversations, created, changed) == FoldBatch(start, owner, batch[..i])
    {
      TakeSnoc(batch, i);
      var m := batch[i];
      var found :- assert service.GetConversation(owner, m.conversationId);
      var c :- assert service.ApplyMessage(owner, m);
      var id := c.conversationId;
      assert id == m.conversationId;
      if found.Some? {
        if Get(created, id).Some? {
          created := Put(created, id, c);
        } else {
          changed := Put(changed, id, c);
        }
      } else {
        changed := Del(changed, id);
        created := Put(created, id, c);
      }
    }
    assert batch[..|batch|] == batch;
    var total :- assert service.TotalUnreadCount(owner);
    BatchFolds(start, owner, batch);
    announcement := DispatchBatch(Values(created), Values(changed), if total != previousTotal then Some(total) else None);
  }
}
