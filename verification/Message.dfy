/** Chat messages: what makes one valid, how a conversation's history is ordered, and the
    in-memory message service. */
module Message {
  import opened Common
  import opened Sorting
  import opened SyncDiff
  import opened ScopeSync
  import HashMaps
  import Paging

  datatype SessionType = Single | WriteGroup | ReadGroup | Notification

  datatype MessageContentType =
    | Text | Picture | Sound | Video | File | AtText | Merger | Card | Location | Custom
    | Typing | Quote | Face | AdvancedText | MarkdownText

  datatype MessageStatus = Sending | SendSuccess | SendFailed | HasDeleted | Filtered

  datatype MessageContent =
    | TextContent(content: string)
    | PictureContent(pictureUrl: string, snapshotUrl: string, width: int, height: int, size: int, imageType: string)
    | FileContent(fileUrl: string, fileName: string, fileSize: int, fileType: string)
  {
    function ContentType(): MessageContentType {
      match this
      case TextContent(_) => Text
      case PictureContent(_, _, _, _, _, _) => Picture
      case FileContent(_, _, _, _) => File
    }

    function Summary(): string {
      match this
      case TextContent(content) => content
      case PictureContent(url, snapshot, _, _, _, _) => if url == "" then snapshot else url
      case FileContent(_, name, _, _) => name
    }

    predicate Valid() {
      match this
      case TextContent(content) => content != ""
      case PictureContent(url, snapshot, _, _, _, _) => url != "" || snapshot != ""
      case FileContent(_, name, size, _) => name != "" && size >= 0
    }
  }

  datatype ChatMessage = ChatMessage(
    clientMsgId: string, serverMsgId: Option<string>, conversationId: string,
    sendId: string, recvId: string, groupId: string,
    sessionType: SessionType, contentType: MessageContentType, content: MessageContent,
    isRead: bool, status: MessageStatus, seqNo: int, sendTime: int, createTime: int,
    attachedInfo: string, ex: string, localEx: string, revoked: bool)

  function MessageKey(m: ChatMessage): (string, string) {
    (m.conversationId, m.clientMsgId)
  }

  function ClientMsgId(m: ChatMessage): string {
    m.clientMsgId
  }

  // ----- routing and validity -----

  /** The two members of a one-to-one conversation, in order. */
  function Pair(a: string, b: string): string {
    if StringLe(a, b) then a + "_" + b else b + "_" + a
  }

  function ConversationIdBySessionType(sendId: string, targetId: string, t: SessionType): Result<string> {
    if sendId == "" || targetId == "" then Err(Args)
    else match t
      case Single => Ok("si_" + Pair(sendId, targetId))
      case WriteGroup => Ok("g_" + targetId)
      case ReadGroup => Ok("sg_" + targetId)
      case Notification => Ok("sn_" + Pair(sendId, targetId))
  }

  function Target(m: ChatMessage): string {
    match m.sessionType
    case Single => m.recvId
    case Notification => m.recvId
    case WriteGroup => m.groupId
    case ReadGroup => m.groupId
  }

  predicate ValidMessage(m: ChatMessage) {
    && m.clientMsgId != "" && m.conversationId != "" && m.sendId != ""
    && m.contentType == m.content.ContentType()
    && Target(m) != ""
    && ConversationIdBySessionType(m.sendId, Target(m), m.sessionType) == Ok(m.conversationId)
    && m.content.Valid()
  }

  /** The conversation id written out: the kind, and the group or the two users in order. */
  predicate IsIdOf(id: string, t: SessionType, sendId: string, recvId: string, groupId: string) {
    match t
    case Single => id == "si_" + (if StringLe(sendId, recvId) then sendId + "_" + recvId else recvId + "_" + sendId)
    case WriteGroup => id == "g_" + groupId
    case ReadGroup => id == "sg_" + groupId
    case Notification => id == "sn_" + (if StringLe(sendId, recvId) then sendId + "_" + recvId else recvId + "_" + sendId)
  }

  /** Which messages are valid, written out. */
  lemma ValidMessageIff(m: ChatMessage)
    ensures ValidMessage(m) <==>
      && m.clientMsgId != "" && m.sendId != ""
      && (if m.sessionType.WriteGroup? || m.sessionType.ReadGroup? then m.groupId != "" else m.recvId != "")
      && IsIdOf(m.conversationId, m.sessionType, m.sendId, m.recvId, m.groupId)
      && match m.content
         case TextContent(text) => m.contentType == Text && text != ""
         case PictureContent(url, snapshot, _, _, _, _) => m.contentType == Picture && (url != "" || snapshot != "")
         case FileContent(_, name, size, _) => m.contentType == File && name != "" && size >= 0
  {
  }

  /** Both ends of a one-to-one conversation give it the same id. */
  lemma BothEndsAgree(a: string, b: string, t: SessionType)
    requires t == Single || t == Notification
    ensures ConversationIdBySessionType(a, b, t) == ConversationIdBySessionType(b, a, t)
  {
    StringLeTotal(a, b);
    if StringLe(a, b) && StringLe(b, a) {
      StringLeAntisymmetric(a, b);
    }
  }

  predicate OneToOne(t: SessionType) {
    t == Single || t == Notification
  }

  predicate SameEnds(a: string, b: string, c: string, d: string) {
    (a == c && b == d) || (a == d && b == c)
  }

  /** `high` starts with what `low2` has beyond `low` and the separator: `low_x_high2` read
      once as `low` and `x_high2`, once as `low_x` and `high2`. */
  predicate Shifts(low: string, high: string, low2: string, high2: string, x: string) {
    low2 == low + "_" + x && high == x + "_" + high2
  }

  ghost predicate Straddles(low: string, high: string, low2: string, high2: string) {
    exists x :: Shifts(low, high, low2, high2, x)
  }

  /** The two ends of a one-to-one conversation in the order its id joins them. */
  function Ends(a: string, b: string): (string, string) {
    if StringLe(a, b) then (a, b) else (b, a)
  }

  /** Two different pairs of users whose ids join to the same text. */
  ghost predicate Confused(a: string, b: string, c: string, d: string) {
    var (low, high) := Ends(a, b);
    var (low2, high2) := Ends(c, d);
    Straddles(low, high, low2, high2) || Straddles(low2, high2, low, high)
  }

  lemma JoinShorter(low: string, high: string, low2: string, high2: string)
    requires |low| < |low2| && low + "_" + high == low2 + "_" + high2
    ensures Straddles(low, high, low2, high2)
  {
    var s := low + "_" + high;
    var x := low2[|low| + 1..];
    assert low2 == s[..|low2|] == low + "_" + x by {
      assert s[|low|] == '_' && s[..|low|] == low;
      assert low2[|low|] == s[|low|];
    }
    assert high == s[|low| + 1..] == x + "_" + high2;
    assert Shifts(low, high, low2, high2, x);
  }

  /** Two joined texts are equal exactly if their parts are, or one straddles the other. */
  lemma JoinEqualIff(low: string, high: string, low2: string, high2: string)
    ensures low + "_" + high == low2 + "_" + high2 <==>
      (low == low2 && high == high2) || Straddles(low, high, low2, high2) || Straddles(low2, high2, low, high)
  {
    if low + "_" + high == low2 + "_" + high2 {
      if |low| < |low2| {
        JoinShorter(low, high, low2, high2);
      } else if |low2| < |low| {
        JoinShorter(low2, high2, low, high);
      } else {
        var s := low + "_" + high;
        assert low == s[..|low|] == low2;
        assert high == s[|low| + 1..] == high2;
      }
    }
    if x :| Shifts(low, high, low2, high2, x) {
      assert low + "_" + (x + "_" + high2) == (low + "_" + x) + "_" + high2;
    }
    if x :| Shifts(low2, high2, low, high, x) {
      assert low2 + "_" + (x + "_" + high) == (low2 + "_" + x) + "_" + high;
    }
  }

  lemma PairEqualIff(a: string, b: string, c: string, d: string)
    ensures Pair(a, b) == Pair(c, d) <==> SameEnds(a, b, c, d) || Confused(a, b, c, d)
  {
    var (low, high) := Ends(a, b);
    var (low2, high2) := Ends(c, d);
    JoinEqualIff(low, high, low2, high2);
    if SameEnds(a, b, c, d) {
      StringLeTotal(a, b);
      if StringLe(a, b) && StringLe(b, a) {
        StringLeAntisymmetric(a, b);
      }
    }
  }

  function Prefix(t: SessionType): string {
    match t
    case Single => "si_"
    case WriteGroup => "g_"
    case ReadGroup => "sg_"
    case Notification => "sn_"
  }

  lemma PrefixesDiffer(t: SessionType, u: SessionType, rest: string, other: string)
    requires t != u
    ensures Prefix(t) + rest != Prefix(u) + other
  {
    assert (Prefix(t) + rest)[0] == Prefix(t)[0] && (Prefix(u) + other)[0] == Prefix(u)[0];
    assert (Prefix(t) + rest)[1] == Prefix(t)[1] && (Prefix(u) + other)[1] == Prefix(u)[1];
  }

  lemma PrefixCancels(t: SessionType, rest: string, other: string)
    requires Prefix(t) + rest == Prefix(t) + other
    ensures rest == other
  {
    assert rest == (Prefix(t) + rest)[|Prefix(t)|..];
    assert other == (Prefix(t) + other)[|Prefix(t)|..];
  }

  /** Exactly when two messages get the same conversation id: they are of one kind, and to
      the same group, or between the same two users, or between two pairs whose ids join to
      the same text. */
  lemma IdsDistinguish(a: string, b: string, t: SessionType, c: string, d: string, u: SessionType)
    requires a != "" && b != "" && c != "" && d != ""
    ensures ConversationIdBySessionType(a, b, t) == ConversationIdBySessionType(c, d, u) <==>
      t == u && if OneToOne(t) then SameEnds(a, b, c, d) || Confused(a, b, c, d) else b == d
  {
    var rest, other := if OneToOne(t) then Pair(a, b) else b, if OneToOne(u) then Pair(c, d) else d;
    assert ConversationIdBySessionType(a, b, t) == Ok(Prefix(t) + rest);
    assert ConversationIdBySessionType(c, d, u) == Ok(Prefix(u) + other);
    if t != u {
      PrefixesDiffer(t, u, rest, other);
    } else {
      if Prefix(t) + rest == Prefix(t) + other {
        PrefixCancels(t, rest, other);
      }
      PairEqualIff(a, b, c, d);
    }
  }

  lemma ConfusedHasSeparator(a: string, b: string, c: string, d: string)
    requires Confused(a, b, c, d)
    ensures '_' in a || '_' in b
    ensures '_' in c || '_' in d
  {
    var (low, high) := Ends(a, b);
    var (low2, high2) := Ends(c, d);
    if x :| Shifts(low, high, low2, high2, x) {
      assert low2[|low|] == '_' && high[|x|] == '_';
    } else if x :| Shifts(low2, high2, low, high, x) {
      assert low[|low2|] == '_' && high2[|x|] == '_';
    }
  }

  /** As long as one of the two pairs has no separator in its ids, equal conversation ids mean
      the same conversation. */
  lemma SeparatorFreeIds(a: string, b: string, t: SessionType, c: string, d: string, u: SessionType)
    requires a != "" && b != "" && c != "" && d != ""
    requires '_' !in a && '_' !in b
    ensures ConversationIdBySessionType(a, b, t) == ConversationIdBySessionType(c, d, u) <==>
      t == u && if OneToOne(t) then SameEnds(a, b, c, d) else b == d
  {
    IdsDistinguish(a, b, t, c, d, u);
    if Confused(a, b, c, d) {
      ConfusedHasSeparator(a, b, c, d);
    }
  }

  /** With the separator in a user id two different pairs share a conversation. */
  lemma IdsCollideExample()
    ensures ConversationIdBySessionType("a_b", "c", Single) == ConversationIdBySessionType("a", "b_c", Single)
  {
    assert "a_b" + "_" + "c" == "a" + "_" + "b_c" == "a_b_c";
    assert StringLe("a_b", "c") && StringLe("a", "b_c");
  }

  // ----- order -----

  predicate MessageLe(left: ChatMessage, right: ChatMessage) {
    left.seqNo < right.seqNo
    || (left.seqNo == right.seqNo
        && (left.sendTime < right.sendTime
            || (left.sendTime == right.sendTime && StringLe(left.clientMsgId, right.clientMsgId))))
  }

  lemma MessageOrder()
    ensures TotalPreorder(MessageLe)
  {
    forall a, b ensures MessageLe(a, b) || MessageLe(b, a) {
      StringLeTotal(a.clientMsgId, b.clientMsgId);
    }
    forall a, b, c | MessageLe(a, b) && MessageLe(b, c) ensures MessageLe(a, c) {
      if StringLe(a.clientMsgId, b.clientMsgId) && StringLe(b.clientMsgId, c.clientMsgId) {
        StringLeTransitive(a.clientMsgId, b.clientMsgId, c.clientMsgId);
      }
    }
  }

  /** Oldest first, written out: by sequence number, then time, then id, all upwards. */
  lemma OldestFirstIff(items: seq<ChatMessage>)
    ensures Sorted(MessageLe, items) <==> forall i, j :: 0 <= i < j < |items| ==>
      var a, b := items[i], items[j];
      || a.seqNo < b.seqNo
      || (a.seqNo == b.seqNo && a.sendTime < b.sendTime)
      || (a.seqNo == b.seqNo && a.sendTime == b.sendTime && StringLe(a.clientMsgId, b.clientMsgId))
  {
  }

  /** Within one conversation no two stored messages tie. */
  lemma ConversationHasNoTies(listed: seq<ChatMessage>, messages: map<(string, string), ChatMessage>, conversationId: string)
    requires Enumerates(listed, messages, MessageKey, KeysUnder(conversationId))
    ensures NoTies(MessageLe, listed)
  {
    forall a, b | a in listed && b in listed && MessageLe(a, b) && MessageLe(b, a) ensures a == b {
      StringLeAntisymmetric(a.clientMsgId, b.clientMsgId);
      assert MessageKey(a) == MessageKey(b);
    }
  }

  // ----- the service -----

  datatype SendMessageAck = SendMessageAck(serverMsgId: string, seqNo: int, sendTime: int)

  /** Replies of the sender: an acknowledgement or a failure. */
  function Acked(m: ChatMessage, ack: SendMessageAck): ChatMessage {
    m.(serverMsgId := Some(ack.serverMsgId), seqNo := ack.seqNo, sendTime := ack.sendTime, status := SendSuccess)
  }

  /** The message left in the store by sending, and what the caller is told. */
  function SendOutcome(m: ChatMessage, reply: Result<SendMessageAck>): (ChatMessage, Result<ChatMessage>) {
    var sending := m.(status := Sending, isRead := true);
    match reply
    case Ok(ack) =>
      if ack.serverMsgId == "" then (sending, Err(Args)) else (Acked(sending, ack), Ok(Acked(sending, ack)))
    case Err(e) => (sending.(status := SendFailed), Err(e))
  }

  function Received(m: ChatMessage): ChatMessage {
    if m.status == Sending then m.(status := SendSuccess) else m
  }

  /** `b` is `a` but for what sending and receiving may change. */
  predicate SameMessage(a: ChatMessage, b: ChatMessage) {
    b == a.(serverMsgId := b.serverMsgId, seqNo := b.seqNo, sendTime := b.sendTime, status := b.status, isRead := b.isRead)
  }

  /** What sending leaves in the store and answers, written out.  An acknowledgement without a
      server id is an error and leaves the message as if still on its way. */
  predicate SendAnswered(m: ChatMessage, reply: Result<SendMessageAck>, stored: ChatMessage, r: Result<ChatMessage>) {
    && SameMessage(m, stored) && stored.isRead
    && (if reply.Ok? && reply.value.serverMsgId != "" then
          && stored.status == SendSuccess && stored.serverMsgId == Some(reply.value.serverMsgId)
          && stored.seqNo == reply.value.seqNo && stored.sendTime == reply.value.sendTime
          && r == Ok(stored)
        else
          && stored.status == (if reply.Ok? then Sending else SendFailed) && stored.serverMsgId == m.serverMsgId
          && stored.seqNo == m.seqNo && stored.sendTime == m.sendTime
          && r == Err(if reply.Ok? then Args else reply.error))
  }

  lemma SendOutcomeIs(m: ChatMessage, reply: Result<SendMessageAck>)
    ensures SendAnswered(m, reply, SendOutcome(m, reply).0, SendOutcome(m, reply).1)
  {
  }

  /** What receiving stores: the message, but one on its way has arrived. */
  predicate IsReceived(m: ChatMessage, stored: ChatMessage) {
    && SameMessage(m, stored) && stored.serverMsgId == m.serverMsgId && stored.seqNo == m.seqNo
    && stored.sendTime == m.sendTime && stored.isRead == m.isRead
    && (m.status == Sending ==> stored.status == SendSuccess)
    && (m.status != Sending ==> stored.status == m.status)
  }

  /** A batch the message store accepts for one conversation. */
  predicate RangeAcceptable(conversationId: string, server: seq<ChatMessage>) {
    conversationId != ""
    && forall i :: 0 <= i < |server| ==> ValidMessage(server[i]) && server[i].conversationId == conversationId
  }

  lemma RangeAcceptableIff(conversationId: string, server: seq<ChatMessage>)
    ensures RangeAcceptable(conversationId, server) <==>
      conversationId != "" && forall m :: m in server ==> ValidMessage(m) && m.conversationId == conversationId
  {
  }

  method CheckRange(conversationId: string, server: seq<ChatMessage>) returns (acceptable: bool)
    ensures acceptable == RangeAcceptable(conversationId, server)
  {
    if conversationId == "" {
      return false;
    }
    for i := 0 to |server|
      invariant forall j :: 0 <= j < i ==> ValidMessage(server[j]) && server[j].conversationId == conversationId
    {
      if !ValidMessage(server[i]) || server[i].conversationId != conversationId {
        return false;
      }
    }
    return true;
  }

  class MessageService {
    var messages: map<(string, string), ChatMessage>

    ghost predicate Valid()
      reads this
    {
      Keyed(messages, MessageKey)
    }

    constructor ()
      ensures Valid() && messages == map[]
    {
      messages := map[];
    }

    method UpsertMessage(m: ChatMessage) returns (r: Result<Unit>)
      requires Valid()
      modifies this
      ensures Valid()
      ensures r == if ValidMessage(m) then Ok(Unit) else Err(Args)
      ensures messages == if ValidMessage(m) then old(messages)[MessageKey(m) := m] else old(messages)
    {
      if !ValidMessage(m) {
        return Err(Args);
      }
      messages := messages[MessageKey(m) := m];
      return Ok(Unit);
    }

    method SendMessage(m: ChatMessage, reply: Result<SendMessageAck>) returns (r: Result<ChatMessage>)
      requires Valid()
      modifies this
      ensures Valid()
      ensures !ValidMessage(m) ==> r == Err(Args) && messages == old(messages)
      ensures ValidMessage(m) ==>
        r == SendOutcome(m, reply).1 && messages == old(messages)[MessageKey(m) := SendOutcome(m, reply).0]
      ensures ValidMessage(m) ==>
        var k := (m.conversationId, m.clientMsgId);
        k in messages && SendAnswered(m, reply, messages[k], r) && messages - {k} == old(messages) - {k}
    {
      if !ValidMessage(m) {
        return Err(Args);
      }
      var sending := m.(status := Sending, isRead := true);
      var stored := UpsertMessage(sending);
      match reply {
        case Ok(ack) =>
          r := AckSendSuccess(sending.conversationId, sending.clientMsgId, ack);
        case Err(e) =>
          var failed := MarkSendFailed(sending.conversationId, sending.clientMsgId);
          r := Err(e);
      }
    }

    method AckSendSuccess(conversationId: string, clientMsgId: string, ack: SendMessageAck)
      returns (r: Result<ChatMessage>)
      requires Valid()
      modifies this
      ensures Valid()
      ensures var k := (conversationId, clientMsgId);
        if ack.serverMsgId != "" && conversationId != "" && clientMsgId != "" && k in old(messages)
        then r == Ok(Acked(old(messages)[k], ack)) && messages == old(messages)[k := r.value]
        else r == Err(Args) && messages == old(messages)
      ensures r.Ok? ==>
        && SameMessage(old(messages)[(conversationId, clientMsgId)], r.value)
        && r.value.serverMsgId == Some(ack.serverMsgId) && r.value.seqNo == ack.seqNo && r.value.sendTime == ack.sendTime
        && r.value.status == SendSuccess && r.value.isRead == old(messages)[(conversationId, clientMsgId)].isRead
    {
      var k := (conversationId, clientMsgId);
      if ack.serverMsgId == "" || conversationId == "" || clientMsgId == "" || k !in messages {
        return Err(Args);
      }
      messages := messages[k := Acked(messages[k], ack)];
      return Ok(messages[k]);
    }

    method MarkSendFailed(conversationId: string, clientMsgId: string) returns (r: Result<ChatMessage>)
      requires Valid()
      modifies this
      ensures Valid()
      ensures var k := (conversationId, clientMsgId);
        if conversationId != "" && clientMsgId != "" && k in old(messages)
        then r == Ok(old(messages)[k].(status := SendFailed)) && messages == old(messages)[k := r.value]
        else r == Err(Args) && messages == old(messages)
    {
      var k := (conversationId, clientMsgId);
      if conversationId == "" || clientMsgId == "" || k !in messages {
        return Err(Args);
      }
      messages := messages[k := messages[k].(status := SendFailed)];
      return Ok(messages[k]);
    }

    method ReceiveMessage(m: ChatMessage) returns (r: Result<ChatMessage>)
      requires Valid()
      modifies this
      ensures Valid()
      ensures r == if ValidMessage(m) then Ok(Received(m)) else Err(Args)
      ensures messages == if ValidMessage(m) then old(messages)[MessageKey(m) := Received(m)] else old(messages)
      ensures r.Ok? ==> IsReceived(m, r.value) && messages == old(messages)[(m.conversationId, m.clientMsgId) := r.value]
    {
      if !ValidMessage(m) {
        return Err(Args);
      }
      var received := m;
      if received.status == Sending {
        received := received.(status := SendSuccess);
      }
      var stored := UpsertMessage(received);
      return Ok(received);
    }

    method AllMessages(conversationId: string) returns (r: Result<seq<ChatMessage>>)
      requires Valid()
      ensures r.Ok? <==> conversationId != ""
      ensures r.Ok? ==>
        && Enumerates(r.value, messages, MessageKey, KeysUnder(conversationId))
        && Sorted(MessageLe, r.value)
      ensures r.Ok? ==> forall m :: m in r.value <==>
        m.conversationId == conversationId && Lookup(messages, (m.conversationId, m.clientMsgId)) == Some(m)
    {
      if conversationId == "" {
        return Err(Args);
      }
      var found := HashMaps.CollectWhere(messages, MessageKey, KeysUnder(conversationId),
                                (m: ChatMessage) => m.conversationId == conversationId);
      MessageOrder();
      SortBySorted(found, MessageLe);
      HashMaps.EnumeratesRearranged(found, SortBy(found, MessageLe), messages, MessageKey, KeysUnder(conversationId));
      return Ok(SortBy(found, MessageLe));
    }

    /** One page of a conversation, newest message first; the order of the map does not show. */
    method History(conversationId: string, pagination: Paging.Pagination) returns (r: Result<seq<ChatMessage>>)
      requires Valid()
      ensures r.Ok? <==> conversationId != ""
      ensures r.Ok? ==> forall listing ::
        Enumerates(listing, messages, MessageKey, KeysUnder(conversationId)) ==>
        r.value == Paging.Paginate(Reverse(SortBy(listing, MessageLe)), pagination, Paging.NATIVE_USIZE_MAX)
    {
      if conversationId == "" {
        return Err(Args);
      }
      var all :- assert AllMessages(conversationId);
      forall listing | Enumerates(listing, messages, MessageKey, KeysUnder(conversationId))
        ensures all == SortBy(listing, MessageLe)
      {
        MessageOrder();
        SortBySorted(listing, MessageLe);
        HashMaps.ListingsAgree(all, listing, messages, MessageKey, KeysUnder(conversationId));
        ConversationHasNoTies(all, messages, conversationId);
        SortedUnique(all, SortBy(listing, MessageLe), MessageLe);
      }
      return Ok(Paging.Paginate(Reverse(all), pagination, Paging.NATIVE_USIZE_MAX));
    }

    method ApplyRange(actions: seq<SyncAction<ChatMessage>>) returns (summary: DomainSyncSummary)
      requires forall a :: a in actions ==> !a.Delete?
      modifies this
      ensures messages == ApplyAll(old(messages), MessageKey, actions)
      ensures summary == Summarize(actions)
    {
      summary := EMPTY_SUMMARY;
      for i := 0 to |actions|
        invariant messages == ApplyAll(old(messages), MessageKey, actions[..i])
        invariant summary == Summarize(actions[..i])
      {
        ApplyOneMore(old(messages), MessageKey, actions, i);
        summary := Record(summary, actions[i]);
        match actions[i] {
          case Insert(item) => messages := messages[MessageKey(item) := item];
          case Update(item, _) => messages := messages[MessageKey(item) := item];
          case Delete(_) =>
          case Unchanged(_, _) =>
        }
      }
      assert actions[..|actions|] == actions;
    }

    /** Lays a range of server messages over a conversation; nothing is deleted. */
    method SyncMessageRange(conversationId: string, server: seq<ChatMessage>) returns (r: Result<DomainSyncSummary>)
      requires Valid()
      modifies this
      ensures Valid()
      ensures r.Ok? <==> RangeAcceptable(conversationId, server)
      ensures r.Err? ==> r.error == Args && messages == old(messages)
      ensures r.Ok? ==>
        && messages == SyncedMap(old(messages), MessageKey, KeysUnder(conversationId), server, OVERLAY_OPTIONS)
        && r.value == SyncSummary(old(messages), MessageKey, KeysUnder(conversationId), server, OVERLAY_OPTIONS)
    {
      var acceptable := CheckRange(conversationId, server);
      if !acceptable {
        return Err(Args);
      }
      var local :- assert AllMessages(conversationId);
      var actions := DiffBy(server, local, ClientMsgId, SameValue<ChatMessage>, OVERLAY_OPTIONS);
      PlanIsSync(messages, MessageKey, KeysUnder(conversationId), server, local, ClientMsgId, OVERLAY_OPTIONS);
      OverlayNeverDeletes(server, local);
      var summary := ApplyRange(actions);
      return Ok(summary);
    }
  }

  lemma OverlayNeverDeletes(server: seq<ChatMessage>, local: seq<ChatMessage>)
    ensures forall a :: a in Plan(server, local, ClientMsgId, SameValue<ChatMessage>, OVERLAY_OPTIONS) ==> !a.Delete?
  {
    ServerActionsNeverDelete(server, local, ClientMsgId, SameValue<ChatMessage>, OVERLAY_OPTIONS);
  }

  /** A range sync forgets no message, touches no other conversation, and with distinct ids
      leaves exactly the server's messages at their keys. */
  lemma RangeOverlays(messages: map<(string, string), ChatMessage>, conversationId: string, server: seq<ChatMessage>)
    requires RangeAcceptable(conversationId, server)
    ensures var after := SyncedMap(messages, MessageKey, KeysUnder(conversationId), server, OVERLAY_OPTIONS);
      && messages.Keys <= after.Keys
      && (forall k: (string, string) :: k.0 != conversationId ==> Lookup(after, k) == Lookup(messages, k))
      && (DistinctKeys(server, MessageKey) ==> after == messages + Indexed(server, MessageKey))
  {
    var scope := KeysUnder(conversationId);
    forall k: (string, string)
      ensures k in messages ==> k in SyncedMap(messages, MessageKey, scope, server, OVERLAY_OPTIONS)
      ensures k.0 != conversationId ==>
        Lookup(SyncedMap(messages, MessageKey, scope, server, OVERLAY_OPTIONS), k) == Lookup(messages, k)
    {
      SyncedMapEntry(messages, MessageKey, scope, server, OVERLAY_OPTIONS, k);
      LastDifferingIsListed(server, MessageKey, k, Lookup(messages, k));
    }
    if DistinctKeys(server, MessageKey) {
      DistinctIsConsistent(messages, server, MessageKey);
      SyncOverlaysIff(messages, MessageKey, scope, server);
    }
  }
}
