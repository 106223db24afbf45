/** What single calls on a session promise: pulls are all or nothing and announce exactly
    what they changed, sends never move the unread total, pushes are not all or nothing,
    and failing logouts change nothing but what is still open. */
module SessionTheorems {
  import opened Common
  import ScopeSync
  import Sorting
  import opened Message
  import Tasks
  import opened Conversation
  import opened ConversationFold
  import opened SessionResources
  import opened Dispatch
  import opened SessionEvents
  import opened SessionSteps

  // ----- pulling -----

  /** `announcement` tells exactly what folding the batch into the conversations changed. */
  ghost predicate TellsExactly(announcement: DispatchBatch, before: Conversations, after: Conversations,
                               owner: string, batch: seq<ChatMessage>)
  {
    && ListsTouched(announcement.created, before, after, owner, batch, false)
    && ListsTouched(announcement.changed, before, after, owner, batch, true)
    && (|batch| <= U32_MAX ==> (announcement.totalUnread.Some? <==> TotalUnread(after, owner) != TotalUnread(before, owner)))
    && (announcement.totalUnread.Some? ==> announcement.totalUnread.value == Wrap32(TotalUnread(after, owner)))
  }

  /** The log grows by the given events and then by the new conversations, the changed ones and
      the total, as far as there are any. */
  predicate TellsInOrder(s: Session, after: Session, first: seq<SessionEvent>, a: DispatchBatch) {
    after.events == s.events + first
                    + (if a.created == [] then [] else [NewConversations(a.created)])
                    + (if a.changed == [] then [] else [ConversationChanged(a.changed)])
                    + (if a.totalUnread.None? then [] else [TotalUnreadCountChanged(a.totalUnread.value)])
  }

  /** The batch was folded into the owner's conversations and told of, after `first`. */
  ghost predicate FoldsAndTells(s: Session, after: Session, owner: string, batch: seq<ChatMessage>,
                                first: seq<SessionEvent>, a: DispatchBatch)
  {
    && after == s.(events := after.events, domains := s.domains.(messages := after.domains.messages,
                                                                 conversations := after.domains.conversations))
    && after.domains.conversations == FoldAll(s.domains.conversations, owner, batch)
    && (forall k: (string, string) :: k.0 != owner ==>
         Lookup(after.domains.conversations, k) == Lookup(s.domains.conversations, k))
    && TellsInOrder(s, after, first, a)
    && TellsExactly(a, s.domains.conversations, after.domains.conversations, owner, batch)
  }

  lemma FoldedExact(s: Session, stored: Session, owner: string, batch: seq<ChatMessage>, first: seq<SessionEvent>)
    returns (a: DispatchBatch)
    requires AllRoutable(owner, batch) && owner != "" && DomainsKeyed(s.domains)
    requires stored == WithMessages(s, stored.domains.messages)
    ensures FoldsAndTells(s, Folded(stored, owner, batch, first), owner, batch, first, a)
  {
    a := Announcement(s.domains.conversations, owner, batch);
    AnnouncementExact(s.domains.conversations, owner, batch);
    if |batch| <= U32_MAX {
      TotalAnnouncedIff(s.domains.conversations, owner, batch);
    }
    forall k: (string, string) | k.0 != owner
      ensures Lookup(FoldAll(s.domains.conversations, owner, batch), k) == Lookup(s.domains.conversations, k)
    {
      FoldAllByConversation(s.domains.conversations, owner, batch, k);
    }
    EventsInOrder(s, Folded(stored, owner, batch, first), first, a);
  }

  lemma EventsInOrder(s: Session, after: Session, first: seq<SessionEvent>, a: DispatchBatch)
    requires after.events == s.events + first + ConversationEvents(a)
    ensures TellsInOrder(s, after, first, a)
  {
    var x := if a.created == [] then [] else [NewConversations(a.created)];
    var y := if a.changed == [] then [] else [ConversationChanged(a.changed)];
    var z := if a.totalUnread.None? then [] else [TotalUnreadCountChanged(a.totalUnread.value)];
    assert (s.events + first) + (x + y + z) == s.events + first + x + y + z;
  }

  /** A pull that succeeds with messages forgets none that were stored, touches no other
      conversation's messages, stores the pulled ones under their keys, and announces each
      conversation it touched once, as new or as changed, with its final value. */
  lemma PullExact(s: Session, conversationId: string, batch: seq<ChatMessage>)
    returns (announcement: DispatchBatch)
    requires Lifecycle(s) && batch != [] && PullStep(s, conversationId, Ok(batch)).1.Ok?
    ensures s.login.Some?
    ensures var (after, owner) := (PullStep(s, conversationId, Ok(batch)).0, s.login.value);
      && s.domains.messages.Keys <= after.domains.messages.Keys
      && (forall k: (string, string) :: k.0 != conversationId ==>
           Lookup(after.domains.messages, k) == Lookup(s.domains.messages, k))
      && (ScopeSync.DistinctKeys(batch, MessageKey) ==>
           after.domains.messages == s.domains.messages + ScopeSync.Indexed(batch, MessageKey))
      && FoldsAndTells(s, after, owner, batch, [NewMessages(batch)], announcement)
  {
    var owner := s.login.value;
    ValidRoutable(owner, batch);
    RangeOverlays(s.domains.messages, conversationId, batch);
    var stored := WithMessages(s, PullStep(s, conversationId, Ok(batch)).0.domains.messages);
    announcement := FoldedExact(s, stored, owner, batch, [NewMessages(batch)]);
  }

  /** A pull fails exactly when nobody is logged in, no conversation is named, the transport
      fails, or one of the messages is invalid, is of another conversation, or was neither sent
      nor received by the user nor carries a group; and then nothing has changed. */
  lemma PullFailsIff(s: Session, conversationId: string, reply: Result<seq<ChatMessage>>)
    requires Lifecycle(s)
    ensures var (after, r) := PullStep(s, conversationId, reply);
      && (r.Err? <==>
           || s.login.None? || conversationId == "" || reply.Err?
           || exists m :: m in reply.value
                && !(ValidMessage(m) && m.conversationId == conversationId
                     && (m.sendId == s.login.value || m.recvId == s.login.value || m.groupId != "")))
      && (r.Err? || r.value == [] ==> after == s)
      && (r.Ok? ==> r == reply)
  {
    if s.login.Some? && conversationId != "" && reply.Ok? {
      var owner, batch := s.login.value, reply.value;
      assert PullAcceptable(owner, conversationId, batch) <==>
        forall i :: 0 <= i < |batch| ==>
          VisibleTo(owner, batch[i]) && ValidMessage(batch[i]) && batch[i].conversationId == conversationId;
    }
  }

  /** So a pull of valid messages of one conversation succeeds if each was sent by the user, or
      received by the user, or carries a group. */
  lemma PullSucceeds(s: Session, conversationId: string, batch: seq<ChatMessage>)
    requires Lifecycle(s) && s.login.Some? && conversationId != ""
    requires forall m :: m in batch ==> ValidMessage(m) && m.conversationId == conversationId
    requires forall m :: m in batch ==> m.sendId == s.login.value || m.recvId == s.login.value || m.groupId != ""
    ensures PullStep(s, conversationId, Ok(batch)).1 == Ok(batch)
  {
    PullFailsIff(s, conversationId, Ok(batch));
  }

  // ----- sending -----

  /** The stored message and the answer are as they should be, and no other message moved. */
  ghost predicate StoresSent(s: Session, after: Session, m: ChatMessage, reply: Result<SendMessageAck>, r: Result<ChatMessage>) {
    var k := (m.conversationId, m.clientMsgId);
    && k in after.domains.messages && SendAnswered(m, reply, after.domains.messages[k], r)
    && after.domains.messages - {k} == s.domains.messages - {k}
  }

  lemma SendStores(s: Session, m: ChatMessage, reply: Result<SendMessageAck>)
    requires Lifecycle(s) && s.login == Some(m.sendId) && ValidMessage(m)
    ensures StoresSent(s, SendStep(s, m, reply).0, m, reply, SendStep(s, m, reply).1)
  {
    SendOutcomeIs(m, reply);
  }

  /** What sending comes to, whatever the answer. */
  lemma SendExact(s: Session, m: ChatMessage, reply: Result<SendMessageAck>) returns (announcement: DispatchBatch)
    requires Lifecycle(s)
    ensures var (after, r) := SendStep(s, m, reply);
      if s.login.None? || m.sendId != s.login.value || !ValidMessage(m) then after == s && r == Err(Args)
      else
        && StoresSent(s, after, m, reply, r)
        && (if r.Ok? then FoldsAndTells(s, after, s.login.value, [r.value], [], announcement)
            else after == s.(domains := s.domains.(messages := after.domains.messages)))
  {
    announcement := DispatchBatch([], [], None);
    if s.login.Some? && m.sendId == s.login.value && ValidMessage(m) {
      var (stored, r) := SendOutcome(m, reply);
      SendStores(s, m, reply);
      if r.Ok? {
        SentRoutable(s.login.value, m, reply);
        announcement := FoldedExact(s, WithMessages(s, s.domains.messages[MessageKey(m) := stored]), s.login.value,
                                    [r.value], []);
      }
    }
  }

  /** Sending a message of one's own announces no unread total, because it moves none. */
  lemma SendKeepsTotal(s: Session, m: ChatMessage, reply: Result<SendMessageAck>)
    requires Lifecycle(s) && s.login.Some?
    ensures var after := SendStep(s, m, reply).0;
      && TotalUnread(after.domains.conversations, s.login.value) == TotalUnread(s.domains.conversations, s.login.value)
      && s.events <= after.events
      && forall i :: |s.events| <= i < |after.events| ==> !after.events[i].TotalUnreadCountChanged?
  {
    if m.sendId == s.login.value && ValidMessage(m) && SendOutcome(m, reply).1.Ok? {
      var batch := [SendOutcome(m, reply).1.value];
      SentRoutable(s.login.value, m, reply);
      OwnMessagesKeepTotal(s.domains.conversations, s.login.value, batch);
      AnnouncementExact(s.domains.conversations, s.login.value, batch);
    }
  }

  // ----- receiving pushes -----

  /** The last message of the batch with a key is the one left under it. */
  predicate LastWithKey(batch: seq<ChatMessage>, i: nat) {
    i < |batch| && forall j :: i < j < |batch| ==> MessageKey(batch[j]) != MessageKey(batch[i])
  }

  lemma {:induction false} StoreAllLast(messages: map<(string, string), ChatMessage>, batch: seq<ChatMessage>, i: nat)
    requires LastWithKey(batch, i)
    ensures Lookup(StoreAll(messages, batch), MessageKey(batch[i])) == Some(Received(batch[i]))
  {
    var n := |batch| - 1;
    if i < n {
      assert MessageKey(batch[n]) != MessageKey(batch[i]);
      assert LastWithKey(batch[..n], i);
      StoreAllLast(messages, batch[..n], i);
    }
  }

  lemma {:induction false} StoreAllElsewhere(messages: map<(string, string), ChatMessage>, batch: seq<ChatMessage>,
                                             k: (string, string))
    requires forall i :: 0 <= i < |batch| ==> MessageKey(batch[i]) != k
    ensures Lookup(StoreAll(messages, batch), k) == Lookup(messages, k)
  {
    if batch != [] {
      StoreAllElsewhere(messages, batch[..|batch| - 1], k);
    }
  }

  lemma {:induction false} SomeLast(batch: seq<ChatMessage>, i: nat) returns (last: nat)
    requires i < |batch|
    ensures LastWithKey(batch, last) && MessageKey(batch[last]) == MessageKey(batch[i])
    decreases |batch| - i
  {
    if LastWithKey(batch, i) {
      last := i;
    } else {
      var j :| i < j < |batch| && MessageKey(batch[j]) == MessageKey(batch[i]);
      last := SomeLast(batch, j);
    }
  }

  /** Everything storing the batch would write is there already. */
  predicate AlreadyStored(messages: map<(string, string), ChatMessage>, batch: seq<ChatMessage>) {
    forall i :: 0 <= i < |batch| && LastWithKey(batch, i) ==>
      Lookup(messages, MessageKey(batch[i])) == Some(Received(batch[i]))
  }

  lemma StoreAllChangesNothingIff(messages: map<(string, string), ChatMessage>, batch: seq<ChatMessage>)
    ensures StoreAll(messages, batch) == messages <==> AlreadyStored(messages, batch)
  {
    var stored := StoreAll(messages, batch);
    if stored == messages {
      forall i | 0 <= i < |batch| && LastWithKey(batch, i)
        ensures Lookup(messages, MessageKey(batch[i])) == Some(Received(batch[i]))
      {
        StoreAllLast(messages, batch, i);
      }
    }
    if AlreadyStored(messages, batch) {
      forall k: (string, string) ensures Lookup(stored, k) == Lookup(messages, k) {
        if i :| 0 <= i < |batch| && MessageKey(batch[i]) == k {
          var last := SomeLast(batch, i);
          StoreAllLast(messages, batch, last);
        } else {
          StoreAllElsewhere(messages, batch, k);
        }
      }
      SameLookups(stored, messages);
    }
  }

  lemma SameLookups(a: map<(string, string), ChatMessage>, b: map<(string, string), ChatMessage>)
    requires forall k: (string, string) :: Lookup(a, k) == Lookup(b, k)
    ensures a == b
  {
    forall k: (string, string) ensures k in a <==> k in b {
      assert Lookup(a, k) == Lookup(b, k);
    }
    forall k: (string, string) | k in a ensures a[k] == b[k] {
      assert Lookup(a, k) == Lookup(b, k);
    }
  }

  /** A failed batch of pushes leaves the session as it was exactly if the messages before
      the first bad one were stored already.  Listeners are told nothing either way. */
  lemma FailedPushUnchangedIff(s: Session, batch: seq<ChatMessage>)
    requires Lifecycle(s) && s.login.Some? && batch != []
    ensures var (after, r) := ReceiveStep(s, Ok(batch));
      var accepted := batch[..AcceptedCount(s.login.value, batch)];
      && (r.Ok? <==> forall m :: m in batch ==>
           (ValidMessage(m) && (m.sendId == s.login.value || m.recvId == s.login.value || m.groupId != "")))
      && (r.Err? ==> (after == s <==> AlreadyStored(s.domains.messages, accepted)))
      && (r.Err? ==> after.events == s.events && after.domains.conversations == s.domains.conversations)
  {
    var n := AcceptedCount(s.login.value, batch);
    StoreAllChangesNothingIff(s.domains.messages, batch[..n]);
    if n < |batch| {
      assert !Receivable(s.login.value, batch[n]);
    }
  }

  /** What storing the pushed messages leaves under their keys, and that it leaves the rest. */
  ghost predicate StoresReceived(before: map<(string, string), ChatMessage>, after: map<(string, string), ChatMessage>,
                                 batch: seq<ChatMessage>)
  {
    && (forall i :: 0 <= i < |batch| && LastWithKey(batch, i) ==>
         MessageKey(batch[i]) in after && IsReceived(batch[i], after[MessageKey(batch[i])]))
    && (forall k: (string, string) :: (forall m :: m in batch ==> MessageKey(m) != k) ==> Lookup(after, k) == Lookup(before, k))
  }

  lemma StoreAllStores(messages: map<(string, string), ChatMessage>, batch: seq<ChatMessage>)
    ensures StoresReceived(messages, StoreAll(messages, batch), batch)
  {
    var after := StoreAll(messages, batch);
    forall i | 0 <= i < |batch| && LastWithKey(batch, i)
      ensures MessageKey(batch[i]) in after && IsReceived(batch[i], after[MessageKey(batch[i])])
    {
      StoreAllLast(messages, batch, i);
    }
    forall k: (string, string) | forall m :: m in batch ==> MessageKey(m) != k
      ensures Lookup(after, k) == Lookup(messages, k)
    {
      StoreAllElsewhere(messages, batch, k);
    }
  }

  /** The first message of the batch that cannot be received, or the length of the batch. */
  predicate FirstBad(owner: string, batch: seq<ChatMessage>, n: nat) {
    && n <= |batch|
    && (forall i :: 0 <= i < n ==>
         ValidMessage(batch[i]) && (batch[i].sendId == owner || batch[i].recvId == owner || batch[i].groupId != ""))
    && (n < |batch| ==>
         !ValidMessage(batch[n]) || (batch[n].sendId != owner && batch[n].recvId != owner && batch[n].groupId == ""))
  }

  /** Without a user, or with nothing received, nothing happens. */
  lemma ReceiveNothing(s: Session, pushed: Result<seq<ChatMessage>>)
    requires Lifecycle(s) && (s.login.None? || pushed.Err? || pushed.value == [])
    ensures ReceiveStep(s, pushed) == (s, if s.login.None? then Err(Args) else pushed)
  {
  }

  /** What receiving a batch of pushes comes to: the messages up to the first bad one are stored
      as received; only if there is none does anybody hear of it, and then of all of them. */
  lemma ReceiveExact(s: Session, batch: seq<ChatMessage>) returns (n: nat, announcement: DispatchBatch)
    requires Lifecycle(s) && s.login.Some? && batch != []
    ensures FirstBad(s.login.value, batch, n)
    ensures var (after, r) := ReceiveStep(s, Ok(batch));
      && StoresReceived(s.domains.messages, after.domains.messages, batch[..n])
      && (if n < |batch| then r == Err(Args) && after == s.(domains := s.domains.(messages := after.domains.messages))
          else
            && r.Ok? && |r.value| == |batch| && (forall i :: 0 <= i < |batch| ==> IsReceived(batch[i], r.value[i]))
            && FoldsAndTells(s, after, s.login.value, r.value, [NewMessages(r.value)], announcement))
  {
    var owner := s.login.value;
    n := AcceptedCount(owner, batch);
    announcement := DispatchBatch([], [], None);
    StoreAllStores(s.domains.messages, batch[..n]);
    if n == |batch| {
      ReceivedRoutable(owner, batch);
      announcement := FoldedExact(s, WithMessages(s, StoreAll(s.domains.messages, batch[..n])), owner,
                                  ReceivedAll(batch), [NewMessages(ReceivedAll(batch))]);
    }
  }

  /** A good message followed by a bad one: the push fails, the good message stays, and nobody
      is told of it. */
  lemma FailedPushKeepsGood(s: Session, good: ChatMessage, bad: ChatMessage)
    requires Lifecycle(s) && s.login.Some? && s.domains.messages == map[]
    requires Receivable(s.login.value, good) && !Receivable(s.login.value, bad)
    ensures var (after, r) := ReceiveStep(s, Ok([good, bad]));
      r.Err? && after.events == s.events && after.domains.messages == map[MessageKey(good) := Received(good)]
  {
    AcceptedCountIs(s.login.value, [good, bad], 1);
    assert [good, bad][..1] == [good];
    assert [good][..0] == [];
    assert StoreAll(map[], [good]) == map[MessageKey(good) := Received(good)];
  }

  /** A session in which "u" is logged in, with these resources and nothing else. */
  function LoggedInSample(resources: seq<Resource>): Session {
    var transport := TransportConfig("ws", "u", "token", 1, "op", "js", "rust-phase1-poc", false, true, true);
    Session(SessionState.LoggedIn, Some("u"), Some(Runtime("u", transport, Unconfigured, resources)), NO_DOMAINS, [],
            [SessionEvent.LoggedIn("u")], Handles(resources), [])
  }

  /** A text message from "b". */
  function TextFromB(recvId: string, conversationId: string): ChatMessage {
    ChatMessage("c1", None, conversationId, "b", recvId, "", Single, Text, TextContent("hi"), false, SendSuccess,
                1, 1, 1, "", "", "", false)
  }

  /** A message from "b" to "u" and then one from "b" to "c". */
  lemma FailedPushExample()
    ensures var s, good, bad := LoggedInSample([]), TextFromB("u", "si_b_u"), TextFromB("c", "si_b_c");
      var (after, r) := ReceiveStep(s, Ok([good, bad]));
      Lifecycle(s) && r == Err(Args) && after.events == s.events && after.domains.messages == map[("si_b_u", "c1") := good]
  {
    assert "b" + "_" + "u" == "b_u" && "si_" + "b_u" == "si_b_u";
    assert Sorting.StringLe("b", "u");
    FailedPushKeepsGood(LoggedInSample([]), TextFromB("u", "si_b_u"), TextFromB("c", "si_b_c"));
  }

  // ----- closing over several attempts -----

  function Attempts(s: Session, passes: seq<Closes>): Session {
    if passes == [] then s
    else LogoutStep(Attempts(s, passes[..|passes| - 1]), Ok(Unit), passes[|passes| - 1]).0
  }

  /** `s` with some of its resources closed. */
  function Partly(s: Session, record: CloseRecord): Session
    requires s.runtime.Some?
  {
    s.(runtime := Some(s.runtime.value.(resources := record.open)), closed := s.closed + record.closed)
  }

  lemma FailedLogout(s: Session, record: CloseRecord, closes: Closes)
    requires s.login.Some? && s.runtime.Some? && PassOver(record, closes).open != []
    ensures LogoutStep(Partly(s, record), Ok(Unit), closes) == (Partly(s, PassOver(record, closes)), Err(External))
  {
    assert s.closed + record.closed + Handles(ClosedBy(record.open, closes))
        == s.closed + (record.closed + Handles(ClosedBy(record.open, closes)));
  }

  /** However often a logout fails because something refuses to close, the user stays logged
      in, tasks, data and listeners see nothing of it, what is still open keeps its order,
      and what closed is not tried again. */
  lemma {:induction false} FailedLogouts(s: Session, passes: seq<Closes>)
    requires Lifecycle(s) && s.login.Some?
    requires forall n :: 0 < n <= |passes| ==>
      Passes(CloseRecord(s.runtime.value.resources, []), passes[..n]).open != []
    ensures Attempts(s, passes) == Partly(s, Passes(CloseRecord(s.runtime.value.resources, []), passes))
  {
    var start := CloseRecord(s.runtime.value.resources, []);
    if passes == [] {
      assert s.closed + [] == s.closed;
    } else {
      var n := |passes| - 1;
      forall k | 0 < k <= n ensures Passes(start, passes[..n][..k]).open != [] {
        assert passes[..n][..k] == passes[..k];
      }
      FailedLogouts(s, passes[..n]);
      assert passes[..|passes|] == passes;
      assert Passes(start, passes).open != [];
      FailedLogout(s, Passes(start, passes[..n]), passes[n]);
    }
  }

  /** The events of a logout that stopped the tasks and closed these resources. */
  function LogoutEvents(s: Session, userId: string, closed: seq<Resource>): seq<SessionEvent> {
    StoppedEvents(Tasks.RunningNames(s.tasks)) + ClosedEvents(closed) + [SessionEvent.LoggedOut(userId)]
  }

  /** A session left with nobody logged in has told of the tasks, the closings and the end. */
  lemma LeftTells(s: Session, record: CloseRecord, last: Closes)
    requires s.login.Some? && s.runtime.Some? && Remaining(record.open, last) == []
    ensures var (after, r) := LogoutStep(Partly(s, record), Ok(Unit), last);
      && r == Ok(Unit) && after.events == s.events + LogoutEvents(s, s.login.value, Reverse(record.open))
      && after.closed == s.closed + record.closed + Handles(Reverse(record.open))
  {
    AllClosed(record.open, last);
    var stopped, closed := StoppedEvents(Tasks.RunningNames(s.tasks)), ClosedEvents(Reverse(record.open));
    var out := [SessionEvent.LoggedOut(s.login.value)];
    assert ((s.events + stopped) + closed) + out == s.events + (stopped + closed + out);
  }

  /** The logout that succeeds after failed ones tells of the tasks, of what every failed pass
      had refused, newest first, and of the logout. */
  lemma LogoutTells(s: Session, failed: seq<Closes>, last: Closes)
    requires Lifecycle(s) && s.login.Some?
    requires forall n :: 0 < n <= |failed| ==>
      Passes(CloseRecord(s.runtime.value.resources, []), failed[..n]).open != []
    requires Remaining(Passes(CloseRecord(s.runtime.value.resources, []), failed).open, last) == []
    ensures var (after, r) := LogoutStep(Attempts(s, failed), Ok(Unit), last);
      var kept := Filter(s.runtime.value.resources, RefusedByAll(failed));
      r == Ok(Unit) && after.events == s.events + LogoutEvents(s, s.login.value, Reverse(kept))
  {
    FailedLogouts(s, failed);
    OpenKeepsOrder(s.runtime.value.resources, failed);
    LeftTells(s, Passes(CloseRecord(s.runtime.value.resources, []), failed), last);
  }

  lemma ToldAll(s: Session, userId: string, resources: seq<Resource>, p: Resource -> bool)
    ensures LogoutEvents(s, userId, Reverse(Filter(resources, p))) == LogoutEvents(s, userId, Reverse(resources)) <==>
      forall i :: 0 <= i < |resources| ==> p(resources[i])
  {
    FilterShorter(resources, p);
    if forall i :: 0 <= i < |resources| ==> p(resources[i]) {
      FilterEverything(resources, p);
    } else {
      assert |Filter(resources, p)| != |resources|;
      assert |LogoutEvents(s, userId, Reverse(Filter(resources, p)))| != |LogoutEvents(s, userId, Reverse(resources))|;
    }
  }

  /** Listeners hear of the closing of every resource if and only if no failed logout before
      had closed any. */
  lemma LogoutTellsAllIff(s: Session, failed: seq<Closes>, last: Closes)
    requires Lifecycle(s) && s.login.Some?
    requires forall n :: 0 < n <= |failed| ==>
      Passes(CloseRecord(s.runtime.value.resources, []), failed[..n]).open != []
    requires Remaining(Passes(CloseRecord(s.runtime.value.resources, []), failed).open, last) == []
    ensures var resources := s.runtime.value.resources;
      LogoutStep(Attempts(s, failed), Ok(Unit), last).0.events == s.events + LogoutEvents(s, s.login.value, Reverse(resources))
      <==> forall i :: 0 <= i < |resources| ==> Refused(failed, resources[i].handle)
  {
    var resources := s.runtime.value.resources;
    LogoutTells(s, failed, last);
    ToldAll(s, s.login.value, resources, RefusedByAll(failed));
    var told, all := LogoutEvents(s, s.login.value, Reverse(Filter(resources, RefusedByAll(failed)))),
                     LogoutEvents(s, s.login.value, Reverse(resources));
    assert (s.events + told)[|s.events|..] == told && (s.events + all)[|s.events|..] == all;
    assert forall i :: 0 <= i < |resources| ==> (RefusedByAll(failed)(resources[i]) <==> Refused(failed, resources[i].handle));
  }

  lemma FilterTwo<T>(x: T, y: T, p: T -> bool)
    ensures Filter([x, y], p) == (if p(x) then [x] else []) + (if p(y) then [y] else [])
  {
    FilterOne(x, p);
    FilterSnoc([x], y, p);
    assert [x] + [y] == [x, y];
  }

  const DATABASE := Resource(ResourceKind.Storage, "db", 0)
  const SOCKET := Resource(ResourceKind.Transport, "ws", 1)

  function OnlySocket(): Closes {
    (handle: nat) => handle == 1
  }

  function Everything(): Closes {
    (handle: nat) => true
  }

  lemma SocketCloses()
    ensures ClosedBy([DATABASE, SOCKET], OnlySocket()) == [SOCKET]
    ensures Remaining([DATABASE, SOCKET], OnlySocket()) == [DATABASE]
  {
    assert Reverse([DATABASE, SOCKET]) == [SOCKET, DATABASE];
    FilterTwo(SOCKET, DATABASE, Closing(OnlySocket()));
    FilterTwo(DATABASE, SOCKET, Refusing(OnlySocket()));
  }

  lemma DatabaseCloses()
    ensures ClosedBy([DATABASE], Everything()) == [DATABASE] && Remaining([DATABASE], Everything()) == []
  {
    assert Reverse([DATABASE]) == [DATABASE];
    FilterOne(DATABASE, Closing(Everything()));
    FilterOne(DATABASE, Refusing(Everything()));
  }

  lemma DatabaseAlone()
    ensures Reverse([DATABASE]) == [DATABASE]
    ensures [] + [1] + Handles([DATABASE]) == [1, 0]
  {
  }

  lemma FirstLogout(s: Session)
    requires s.login == Some("u") && s.runtime.Some? && s.runtime.value.resources == [DATABASE, SOCKET] && s.closed == []
    ensures LogoutStep(s, Ok(Unit), OnlySocket()) == (Partly(s, CloseRecord([DATABASE], [1])), Err(External))
  {
    SocketCloses();
    assert Handles([SOCKET]) == [1];
    assert [] + [1] == [1];
  }

  lemma SecondLogout(s: Session)
    requires s.login == Some("u") && s.runtime.Some? && s.closed == []
    ensures var (after, r) := LogoutStep(Partly(s, CloseRecord([DATABASE], [1])), Ok(Unit), Everything());
      r == Ok(Unit) && after.closed == [1, 0] && after.events == s.events + LogoutEvents(s, "u", [DATABASE])
  {
    DatabaseCloses();
    DatabaseAlone();
    LeftTells(s, CloseRecord([DATABASE], [1]), Everything());
  }

  /** The first logout closes the socket but not the database, the second the database: of the
      two closings listeners hear of one. */
  lemma LostCloseExample()
    ensures var s := LoggedInSample([DATABASE, SOCKET]);
      var first := LogoutStep(s, Ok(Unit), OnlySocket());
      var second := LogoutStep(first.0, Ok(Unit), Everything());
      && first.1 == Err(External) && second.1 == Ok(Unit) && second.0.closed == [1, 0]
      && second.0.events == s.events + [ResourceClosed(ResourceKind.Storage, "db"), SessionEvent.LoggedOut("u")]
  {
    var s := LoggedInSample([DATABASE, SOCKET]);
    FirstLogout(s);
    SecondLogout(s);
    assert StoppedEvents(Tasks.RunningNames([])) == [];
    assert LogoutEvents(s, "u", [DATABASE])
        == [ResourceClosed(ResourceKind.Storage, "db"), SessionEvent.LoggedOut("u")];
  }
}
