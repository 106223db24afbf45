/** Conversations of an owner, and how messages are folded into them. */
module Conversation {
  import opened Common
  import opened Sorting
  import opened SyncDiff
  import opened ScopeSync
  import HashMaps
  import opened Message

  datatype MessageSnapshot = MessageSnapshot(
    clientMsgId: string, senderUserId: string, contentType: MessageContentType,
    summary: string, sendTime: int, seqNo: int)

  datatype ConversationInfo = ConversationInfo(
    ownerUserId: string, conversationId: string, conversationType: SessionType,
    userId: string, groupId: string, showName: string, faceUrl: string, recvMsgOpt: int,
    unreadCount: u32, latestMessage: Option<MessageSnapshot>, latestMsgSendTime: int,
    draftText: string, draftTextTime: int, isPinned: bool, maxSeq: int, minSeq: int, ex: string)

  function SnapshotOf(m: ChatMessage): MessageSnapshot {
    MessageSnapshot(m.clientMsgId, m.sendId, m.contentType, m.content.Summary(), m.sendTime, m.seqNo)
  }

  function ConversationKey(c: ConversationInfo): (string, string) {
    (c.ownerUserId, c.conversationId)
  }

  function ConversationId(c: ConversationInfo): string {
    c.conversationId
  }

  /** Peer, group and name shown for a conversation created by `m`. */
  function ConversationTarget(owner: string, m: ChatMessage): Result<(string, string, string)> {
    match m.sessionType
    case Single => PeerTarget(owner, m)
    case Notification => PeerTarget(owner, m)
    case WriteGroup => if m.groupId == "" then Err(Args) else Ok(("", m.groupId, m.groupId))
    case ReadGroup => if m.groupId == "" then Err(Args) else Ok(("", m.groupId, m.groupId))
  }

  function PeerTarget(owner: string, m: ChatMessage): Result<(string, string, string)> {
    var peer := if m.sendId == owner then m.recvId else m.sendId;
    if peer == "" then Err(Args) else Ok((peer, "", peer))
  }

  function FromMessage(owner: string, m: ChatMessage): Result<ConversationInfo> {
    if owner == "" then Err(Args) else
    var target :- ConversationTarget(owner, m);
    Ok(ConversationInfo(owner, m.conversationId, m.sessionType, target.0, target.1, target.2, "", 0,
                        0, None, 0, "", 0, false, 0, 0, ""))
  }

  /** The record a message opens, written out: the other user or the group, shown by its id, and
      nothing counted yet.  Without an owner or without the other side there is none. */
  lemma OpenedRecord(owner: string, m: ChatMessage)
    ensures var toGroup := m.sessionType.WriteGroup? || m.sessionType.ReadGroup?;
      var other := if toGroup then m.groupId else if m.sendId == owner then m.recvId else m.sendId;
      FromMessage(owner, m) ==
        if owner == "" || other == "" then Err(Args)
        else Ok(ConversationInfo(
          ownerUserId := owner, conversationId := m.conversationId, conversationType := m.sessionType,
          userId := if toGroup then "" else other, groupId := if toGroup then other else "", showName := other,
          faceUrl := "", recvMsgOpt := 0, unreadCount := 0, latestMessage := None, latestMsgSendTime := 0,
          draftText := "", draftTextTime := 0, isPinned := false, maxSeq := 0, minSeq := 0, ex := ""))
  {
  }

  lemma ValidHasTarget(owner: string, m: ChatMessage)
    requires owner != "" && ValidMessage(m)
    ensures FromMessage(owner, m).Ok?
  {
  }

  /** The id that the owner computes for a conversation from the peer or group it shows. */
  function IdSeenBy(owner: string, c: ConversationInfo): Result<string> {
    ConversationIdBySessionType(owner, if OneToOne(c.conversationType) then c.userId else c.groupId, c.conversationType)
  }

  predicate IsEnd(owner: string, m: ChatMessage) {
    owner == m.sendId || owner == m.recvId
  }

  /** A valid message opens a valid conversation.  It is the owner's own, that is, it has the
      id the owner computes from the peer or group shown, exactly unless the message went
      between two others whose ids do not happen to join to the same text. */
  lemma OpensOwnConversationIff(owner: string, m: ChatMessage)
    requires ValidMessage(m) && owner != ""
    ensures FromMessage(owner, m).Ok? && ValidConversation(FromMessage(owner, m).value)
    ensures IdSeenBy(owner, FromMessage(owner, m).value) == Ok(m.conversationId) <==>
      !OneToOne(m.sessionType) || IsEnd(owner, m) || Confused(owner, m.sendId, m.sendId, m.recvId)
  {
    var c := FromMessage(owner, m).value;
    if OneToOne(m.sessionType) {
      IdsDistinguish(owner, c.userId, m.sessionType, m.sendId, m.recvId, m.sessionType);
    }
  }

  /** The other side of a one-to-one message as the owner is shown it. */
  function Peer(owner: string, m: ChatMessage): string {
    if m.sendId == owner then m.recvId else m.sendId
  }

  /** Two one-to-one messages show the owner the same peer: between the same two users exactly
      if the owner is one of them or the sender is the same. */
  predicate ShowSamePeer(owner: string, m: ChatMessage, n: ChatMessage) {
    if SameEnds(m.sendId, m.recvId, n.sendId, n.recvId) then IsEnd(owner, m) || m.sendId == n.sendId
    else Peer(owner, m) == Peer(owner, n)
  }

  /** Messages of one kind and, for groups, to one group, open the same conversation exactly if
      they show the same peer. */
  lemma OpenedByPeer(owner: string, m: ChatMessage, n: ChatMessage)
    requires ValidMessage(m) && ValidMessage(n) && owner != ""
    requires m.conversationId == n.conversationId && m.sessionType == n.sessionType
    requires !OneToOne(m.sessionType) ==> m.groupId == n.groupId
    ensures FromMessage(owner, m).Ok? && FromMessage(owner, n).Ok?
    ensures FromMessage(owner, m) == FromMessage(owner, n) <==>
      !OneToOne(m.sessionType) || Peer(owner, m) == Peer(owner, n)
  {
  }

  lemma PeersOfEnds(owner: string, m: ChatMessage, n: ChatMessage)
    ensures Peer(owner, m) == Peer(owner, n) <==> ShowSamePeer(owner, m, n)
    ensures IsEnd(owner, m) && IsEnd(owner, n) ==>
      (ShowSamePeer(owner, m, n) <==> SameEnds(m.sendId, m.recvId, n.sendId, n.recvId))
  {
  }

  /** When two valid messages filed under one id open the same conversation.  If the owner is
      an end of both, that is exactly when they are between the same two users; and different
      users under one id take ids that join to the same text. */
  lemma OpenSameIff(owner: string, m: ChatMessage, n: ChatMessage)
    requires ValidMessage(m) && ValidMessage(n) && owner != "" && m.conversationId == n.conversationId
    ensures m.sessionType == n.sessionType
    ensures FromMessage(owner, m).Ok? && FromMessage(owner, n).Ok?
    ensures FromMessage(owner, m) == FromMessage(owner, n) <==> !OneToOne(m.sessionType) || ShowSamePeer(owner, m, n)
    ensures OneToOne(m.sessionType) && IsEnd(owner, m) && IsEnd(owner, n) ==>
      (ShowSamePeer(owner, m, n) <==> SameEnds(m.sendId, m.recvId, n.sendId, n.recvId))
    ensures OneToOne(m.sessionType) && !SameEnds(m.sendId, m.recvId, n.sendId, n.recvId) ==>
      Confused(m.sendId, m.recvId, n.sendId, n.recvId)
  {
    IdsDistinguish(m.sendId, Target(m), m.sessionType, n.sendId, Target(n), n.sessionType);
    OpenedByPeer(owner, m, n);
    PeersOfEnds(owner, m, n);
  }

  // ----- folding one message -----

  /** Whether a snapshot takes the place of the latest one. */
  predicate Replaces(latest: MessageSnapshot, m: MessageSnapshot) {
    if m.seqNo > 0 && latest.seqNo > 0 then
      m.seqNo > latest.seqNo || (m.seqNo == latest.seqNo && m.sendTime >= latest.sendTime)
    else
      m.sendTime >= latest.sendTime
  }

  predicate ShouldReplaceLatest(c: ConversationInfo, m: ChatMessage) {
    c.latestMessage.None? || Replaces(c.latestMessage.value, SnapshotOf(m))
  }

  /** A message of someone else that still has to be read. */
  predicate CountsUnread(owner: string, m: ChatMessage) {
    m.sendId != owner && !m.isRead && !m.revoked
  }

  function SaturatingSucc(n: u32): u32 {
    if n == 0xFFFF_FFFF then n else n + 1
  }

  function Fold(owner: string, c: ConversationInfo, m: ChatMessage): ConversationInfo {
    var c1 := if m.seqNo > c.maxSeq then c.(maxSeq := m.seqNo) else c;
    var c2 := if ShouldReplaceLatest(c1, m)
              then c1.(latestMsgSendTime := m.sendTime, latestMessage := Some(SnapshotOf(m))) else c1;
    if CountsUnread(owner, m) then c2.(unreadCount := SaturatingSucc(c2.unreadCount)) else c2
  }

  /** `m` comes to be shown as the latest message: there was none, or it is not older, by
      sequence number and then time if both have a number, and by time alone otherwise. */
  predicate BecomesLatest(latest: Option<MessageSnapshot>, m: ChatMessage) {
    || latest.None?
    || (m.seqNo > 0 && latest.value.seqNo > 0 &&
        (m.seqNo > latest.value.seqNo || (m.seqNo == latest.value.seqNo && m.sendTime >= latest.value.sendTime)))
    || ((m.seqNo <= 0 || latest.value.seqNo <= 0) && m.sendTime >= latest.value.sendTime)
  }

  /** What one message makes of a conversation, field by field. */
  lemma FoldExact(owner: string, c: ConversationInfo, m: ChatMessage)
    ensures var after := Fold(owner, c, m);
      && after == c.(maxSeq := after.maxSeq, latestMessage := after.latestMessage,
                     latestMsgSendTime := after.latestMsgSendTime, unreadCount := after.unreadCount)
      && after.maxSeq == Max(c.maxSeq, m.seqNo)
      && (if BecomesLatest(c.latestMessage, m) then
            && after.latestMsgSendTime == m.sendTime
            && after.latestMessage == Some(MessageSnapshot(
                 clientMsgId := m.clientMsgId, senderUserId := m.sendId, contentType := m.contentType,
                 summary := match m.content
                            case TextContent(text) => text
                            case PictureContent(url, snapshot, _, _, _, _) => if url != "" then url else snapshot
                            case FileContent(_, name, _, _) => name,
                 sendTime := m.sendTime, seqNo := m.seqNo))
          else after.latestMsgSendTime == c.latestMsgSendTime && after.latestMessage == c.latestMessage)
      && after.unreadCount as int
         == (if m.sendId == owner || m.isRead || m.revoked then c.unreadCount as int else Min(U32_MAX, c.unreadCount as int + 1))
  {
  }

  /** The conversation a message arrives in: the stored one, or a new one. */
  function Arrival(conversations: map<(string, string), ConversationInfo>, owner: string, m: ChatMessage)
    : Result<ConversationInfo>
  {
    if owner == "" then Err(Args)
    else if (owner, m.conversationId) in conversations then Ok(conversations[(owner, m.conversationId)])
    else FromMessage(owner, m)
  }

  /** The map after a message; a message without a target changes nothing. */
  function FoldInto(conversations: map<(string, string), ConversationInfo>, owner: string, m: ChatMessage)
    : map<(string, string), ConversationInfo>
  {
    match Arrival(conversations, owner, m)
    case Ok(c) => conversations[(owner, m.conversationId) := Fold(owner, c, m)]
    case Err(_) => conversations
  }

  // ----- unread totals -----

  ghost function SumUnread(conversations: map<(string, string), ConversationInfo>, keys: set<(string, string)>): nat
    requires keys <= conversations.Keys
  {
    if keys == {} then 0 else
    var k :| k in keys;
    conversations[k].unreadCount as nat + SumUnread(conversations, keys - {k})
  }

  /** Any key may be split off first. */
  lemma {:induction false} SumUnreadSplit(conversations: map<(string, string), ConversationInfo>,
                                          keys: set<(string, string)>, x: (string, string))
    requires keys <= conversations.Keys && x in keys
    ensures SumUnread(conversations, keys)
         == conversations[x].unreadCount as nat + SumUnread(conversations, keys - {x})
  {
    var k :| k in keys && SumUnread(conversations, keys)
                          == conversations[k].unreadCount as nat + SumUnread(conversations, keys - {k});
    if k != x {
      SumUnreadSplit(conversations, keys - {k}, x);
      SumUnreadSplit(conversations, keys - {x}, k);
      assert keys - {k} - {x} == keys - {x} - {k};
    }
  }

  ghost function OwnedKeys(conversations: map<(string, string), ConversationInfo>, owner: string): set<(string, string)> {
    set k | k in conversations && k.0 == owner
  }

  ghost function TotalUnread(conversations: map<(string, string), ConversationInfo>, owner: string): nat {
    SumUnread(conversations, OwnedKeys(conversations, owner))
  }

  function SumAlong(conversations: map<(string, string), ConversationInfo>, keys: seq<(string, string)>): nat
    requires forall k :: k in keys ==> k in conversations
  {
    if keys == [] then 0 else
    SumAlong(conversations, keys[..|keys| - 1]) + conversations[keys[|keys| - 1]].unreadCount as nat
  }

  /** The total adds up the counts of the conversations stored for the owner, each once. */
  lemma {:induction false} SumUnreadIs(conversations: map<(string, string), ConversationInfo>, keys: seq<(string, string)>)
    requires NoDup(keys) && forall k :: k in keys ==> k in conversations
    ensures Elems(keys) <= conversations.Keys
    ensures SumUnread(conversations, Elems(keys)) == SumAlong(conversations, keys)
  {
    if keys != [] {
      var n := |keys| - 1;
      SumUnreadIs(conversations, keys[..n]);
      assert keys[n] in Elems(keys);
      assert Elems(keys) - {keys[n]} == Elems(keys[..n]);
      SumUnreadSplit(conversations, Elems(keys), keys[n]);
    }
  }

  lemma TotalUnreadIs(conversations: map<(string, string), ConversationInfo>, owner: string, keys: seq<(string, string)>)
    requires NoDup(keys) && forall k :: k in keys <==> k in conversations && k.0 == owner
    ensures TotalUnread(conversations, owner) == SumAlong(conversations, keys)
  {
    SumUnreadIs(conversations, keys);
    assert OwnedKeys(conversations, owner) == Elems(keys);
  }

  // ----- order and validity -----

  predicate ConversationLe(left: ConversationInfo, right: ConversationInfo) {
    (left.isPinned && !right.isPinned)
    || (left.isPinned == right.isPinned
        && (left.latestMsgSendTime > right.latestMsgSendTime
            || (left.latestMsgSendTime == right.latestMsgSendTime
                && StringLe(left.conversationId, right.conversationId))))
  }

  /** The order of the list, written out: pinned ones first, then those with the latest message
      first, then by id. */
  lemma ListedOrderIff(items: seq<ConversationInfo>)
    ensures Sorted(ConversationLe, items) <==> forall i, j :: 0 <= i < j < |items| ==>
      var a, b := items[i], items[j];
      || (a.isPinned && !b.isPinned)
      || (a.isPinned == b.isPinned && a.latestMsgSendTime > b.latestMsgSendTime)
      || (a.isPinned == b.isPinned && a.latestMsgSendTime == b.latestMsgSendTime && StringLe(a.conversationId, b.conversationId))
  {
  }

  lemma ConversationOrder()
    ensures TotalPreorder(ConversationLe)
  {
    forall a, b ensures ConversationLe(a, b) || ConversationLe(b, a) {
      StringLeTotal(a.conversationId, b.conversationId);
    }
    forall a, b, c | ConversationLe(a, b) && ConversationLe(b, c) ensures ConversationLe(a, c) {
      if StringLe(a.conversationId, b.conversationId) && StringLe(b.conversationId, c.conversationId) {
        StringLeTransitive(a.conversationId, b.conversationId, c.conversationId);
      }
    }
  }

  predicate ValidConversation(c: ConversationInfo) {
    && c.ownerUserId != "" && c.conversationId != ""
    && (match c.conversationType
        case Single => c.userId != ""
        case Notification => c.userId != ""
        case WriteGroup => c.groupId != ""
        case ReadGroup => c.groupId != "")
  }

  /** Which conversations are valid, written out. */
  lemma ValidConversationIff(c: ConversationInfo)
    ensures ValidConversation(c) <==>
      && c.ownerUserId != "" && c.conversationId != ""
      && if c.conversationType.WriteGroup? || c.conversationType.ReadGroup? then c.groupId != "" else c.userId != ""
  {
  }

  predicate ConversationsAcceptable(owner: string, server: seq<ConversationInfo>) {
    owner != "" && forall i :: 0 <= i < |server| ==> ValidConversation(server[i]) && server[i].ownerUserId == owner
  }

  method CheckConversations(owner: string, server: seq<ConversationInfo>) returns (acceptable: bool)
    ensures acceptable == ConversationsAcceptable(owner, server)
  {
    if owner == "" {
      return false;
    }
    for i := 0 to |server|
      invariant forall j :: 0 <= j < i ==> ValidConversation(server[j]) && server[j].ownerUserId == owner
    {
      if !ValidConversation(server[i]) || server[i].ownerUserId != owner {
        return false;
      }
    }
    return true;
  }

  /** Adds up unread counts in whatever order the map yields them. */
  method SumCounts(conversations: map<(string, string), ConversationInfo>, keys: set<(string, string)>)
    returns (total: u32)
    requires keys <= conversations.Keys
    ensures total == Wrap32(SumUnread(conversations, keys))
  {
    total := 0;
    ghost var sum: nat := 0;
    var rest := keys;
    while rest != {}
      invariant rest <= conversations.Keys
      invariant total == Wrap32(sum) && sum + SumUnread(conversations, rest) == SumUnread(conversations, keys)
    {
      var k :| k in rest;
      SumUnreadSplit(conversations, rest, k);
      WrapAdd(sum, conversations[k].unreadCount as nat);
      total := Wrap32(total as nat + conversations[k].unreadCount as nat);
      sum := sum + conversations[k].unreadCount as nat;
      rest := rest - {k};
    }
  }

  // ----- the service -----

  class ConversationService {
    var conversations: map<(string, string), ConversationInfo>

    ghost predicate Valid()
      reads this
    {
      Keyed(conversations, ConversationKey)
    }

    constructor ()
      ensures Valid() && conversations == map[]
    {
      conversations := map[];
    }

    method UpsertConversation(c: ConversationInfo) returns (r: Result<Unit>)
      requires Valid()
      modifies this
      ensures Valid()
      ensures r.Ok? <==> ValidConversation(c)
      ensures conversations == if r.Ok? then old(conversations)[ConversationKey(c) := c] else old(conversations)
    {
      if !ValidConversation(c) {
        return Err(Args);
      }
      conversations := conversations[ConversationKey(c) := c];
      return Ok(Unit);
    }

    method GetConversation(owner: string, conversationId: string) returns (r: Result<Option<ConversationInfo>>)
      ensures r == if owner == "" || conversationId == "" then Err(Args)
                   else Ok(Lookup(conversations, (owner, conversationId)))
    {
      if owner == "" || conversationId == "" {
        return Err(Args);
      }
      if (owner, conversationId) in conversations {
        return Ok(Some(conversations[(owner, conversationId)]));
      }
      return Ok(None);
    }

    method ApplyMessage(owner: string, m: ChatMessage) returns (r: Result<ConversationInfo>)
      requires Valid()
      modifies this
      ensures Valid()
      ensures r.Ok? <==> Arrival(old(conversations), owner, m).Ok?
      ensures r.Err? ==> r.error == Args
      ensures conversations == FoldInto(old(conversations), owner, m)
      ensures r.Ok? ==> (owner, m.conversationId) in conversations && r.value == conversations[(owner, m.conversationId)]
    {
      if owner == "" {
        return Err(Args);
      }
      var key := (owner, m.conversationId);
      if key !in conversations {
        var created := FromMessage(owner, m);
        if created.Err? {
          return Err(Args);
        }
        conversations := conversations[key := created.value];
      }
      var c := conversations[key];
      if m.seqNo > c.maxSeq {
        c := c.(maxSeq := m.seqNo);
      }
      if ShouldReplaceLatest(c, m) {
        c := c.(latestMsgSendTime := m.sendTime);
        c := c.(latestMessage := Some(SnapshotOf(m)));
      }
      if m.sendId != owner && !m.isRead && !m.revoked {
        c := c.(unreadCount := SaturatingSucc(c.unreadCount));
      }
      conversations := conversations[key := c];
      return Ok(c);
    }

    /** Clears the unread count of a conversation and returns what it was. */
    method MarkConversationRead(owner: string, conversationId: string) returns (r: Result<u32>)
      requires Valid()
      modifies this
      ensures Valid()
      ensures r.Ok? <==> owner != "" && conversationId != "" && (owner, conversationId) in old(conversations)
      ensures r.Err? ==> conversations == old(conversations)
      ensures r.Ok? ==>
        && conversations.Keys == old(conversations).Keys
        && r.value as nat + TotalUnread(conversations, owner) == old(TotalUnread(conversations, owner))
        && conversations[(owner, conversationId)].unreadCount == 0
        && conversations - {(owner, conversationId)} == old(conversations) - {(owner, conversationId)}
    {
      var key := (owner, conversationId);
      if owner == "" || conversationId == "" || key !in conversations {
        return Err(Args);
      }
      var previous := conversations[key].unreadCount;
      conversations := conversations[key := conversations[key].(unreadCount := 0)];
      TotalUnreadUpdate(old(conversations), owner, key, conversations[key]);
      return Ok(previous);
    }

    /** The owner's unread total, in 32-bit arithmetic. */
    method TotalUnreadCount(owner: string) returns (r: Result<u32>)
      requires Valid()
      ensures r == if owner == "" then Err(Args) else Ok(Wrap32(TotalUnread(conversations, owner)))
    {
      if owner == "" {
        return Err(Args);
      }
      var owned := set k | k in conversations && conversations[k].ownerUserId == owner;
      assert owned == OwnedKeys(conversations, owner);
      var total := SumCounts(conversations, owned);
      return Ok(total);
    }

    method AllConversations(owner: string) returns (r: Result<seq<ConversationInfo>>)
      requires Valid()
      ensures r.Ok? <==> owner != ""
      ensures r.Ok? ==>
        && Enumerates(r.value, conversations, ConversationKey, KeysUnder(owner))
        && Sorted(ConversationLe, r.value)
      ensures r.Ok? ==> forall c :: c in r.value <==>
        c.ownerUserId == owner && Lookup(conversations, (c.ownerUserId, c.conversationId)) == Some(c)
    {
      if owner == "" {
        return Err(Args);
      }
      var found := HashMaps.CollectWhere(conversations, ConversationKey, KeysUnder(owner),
                                (c: ConversationInfo) => c.ownerUserId == owner);
      ConversationOrder();
      SortBySorted(found, ConversationLe);
      HashMaps.EnumeratesRearranged(found, SortBy(found, ConversationLe), conversations, ConversationKey, KeysUnder(owner));
      return Ok(SortBy(found, ConversationLe));
    }

    method ApplyActions(actions: seq<SyncAction<ConversationInfo>>) returns (summary: DomainSyncSummary)
      modifies this
      ensures conversations == ApplyAll(old(conversations), ConversationKey, actions)
      ensures summary == Summarize(actions)
    {
      summary := EMPTY_SUMMARY;
      for i := 0 to |actions|
        invariant conversations == ApplyAll(old(conversations), ConversationKey, actions[..i])
        invariant summary == Summarize(actions[..i])
      {
        ApplyOneMore(old(conversations), ConversationKey, actions, i);
        summary := Record(summary, actions[i]);
        match actions[i] {
          case Insert(item) => conversations := conversations[ConversationKey(item) := item];
          case Update(item, _) => conversations := conversations[ConversationKey(item) := item];
          case Delete(item) => conversations := conversations - {ConversationKey(item)};
          case Unchanged(_, _) =>
        }
      }
      assert actions[..|actions|] == actions;
    }

    method SyncConversations(owner: string, server: seq<ConversationInfo>) returns (r: Result<DomainSyncSummary>)
      requires Valid()
      modifies this
      ensures Valid()
      ensures r.Ok? <==> owner != "" && forall c :: c in server ==> ValidConversation(c) && c.ownerUserId == owner
      ensures r.Err? ==> conversations == old(conversations)
      ensures r.Ok? ==>
        && conversations == SyncedMap(old(conversations), ConversationKey, KeysUnder(owner), server, DEFAULT_OPTIONS)
        && r.value == SyncSummary(old(conversations), ConversationKey, KeysUnder(owner), server, DEFAULT_OPTIONS)
    {
      var acceptable := CheckConversations(owner, server);
      if !acceptable {
        return Err(Args);
      }
      var local :- assert AllConversations(owner);
      var actions := DiffBy(server, local, ConversationId, SameValue<ConversationInfo>, DEFAULT_OPTIONS);
      PlanIsSync(conversations, ConversationKey, KeysUnder(owner), server, local, ConversationId, DEFAULT_OPTIONS);
      var summary := ApplyActions(actions);
      return Ok(summary);
    }
  }

  lemma {:induction false} SumUnreadSame(a: map<(string, string), ConversationInfo>, b: map<(string, string), ConversationInfo>,
                                         keys: set<(string, string)>)
    requires keys <= a.Keys && keys <= b.Keys
    requires forall k :: k in keys ==> a[k] == b[k]
    ensures SumUnread(a, keys) == SumUnread(b, keys)
  {
    if keys != {} {
      var k :| k in keys;
      SumUnreadSplit(a, keys, k);
      SumUnreadSplit(b, keys, k);
      SumUnreadSame(a, b, keys - {k});
    }
  }

  /** Storing a conversation moves the owner's total by the change of its own count. */
  lemma TotalUnreadUpdate(conversations: map<(string, string), ConversationInfo>, owner: string,
                          key: (string, string), c: ConversationInfo)
    requires key.0 == owner
    ensures var before := if key in conversations then conversations[key].unreadCount as nat else 0;
      TotalUnread(conversations[key := c], owner) + before
        == TotalUnread(conversations, owner) + c.unreadCount as nat
  {
    var after := conversations[key := c];
    var rest := OwnedKeys(conversations, owner) - {key};
    assert OwnedKeys(after, owner) - {key} == rest;
    SumUnreadSplit(after, OwnedKeys(after, owner), key);
    SumUnreadSame(conversations, after, rest);
    if key in conversations {
      SumUnreadSplit(conversations, OwnedKeys(conversations, owner), key);
    } else {
      assert OwnedKeys(conversations, owner) == rest;
    }
  }
}
