/** Exactly when folding messages does not depend on the order they arrive in: for the latest
    message, for the record of one conversation, and for whole batches. */
module FoldOrder {
  import opened Common
  import Sorting
  import opened Message
  import opened Conversation
  import opened ConversationFold
  import ScopeSync

  // ----- the latest message -----

  /** Whatever the order of the batch, the same message ends up latest. */
  ghost predicate OrderFree(base: Option<MessageSnapshot>, batch: seq<ChatMessage>) {
    forall p :: multiset(p) == multiset(batch) ==> LatestOf(base, p) == LatestOf(base, batch)
  }

  /** No other message of the batch replaces `w`. */
  predicate Undisplaced(batch: seq<ChatMessage>, w: MessageSnapshot) {
    forall i :: 0 <= i < |batch| && SnapshotOf(batch[i]) != w ==> !Replaces(w, SnapshotOf(batch[i]))
  }

  /** `w` is a candidate that displaces the old latest message and that no other message of
      the batch displaces. */
  ghost predicate Winner(base: Option<MessageSnapshot>, batch: seq<ChatMessage>, w: MessageSnapshot) {
    w in Candidates(base, batch) && Undisplaced(batch, w) && (base.Some? ==> Replaces(base.value, w))
  }

  lemma {:induction false} LatestIsCandidate(base: Option<MessageSnapshot>, batch: seq<ChatMessage>)
    requires base.Some? || batch != []
    ensures LatestOf(base, batch).Some? && LatestOf(base, batch).value in Candidates(base, batch)
  {
    if batch != [] {
      CandidatesSnoc(base, batch);
      if base.Some? || |batch| > 1 {
        LatestIsCandidate(base, batch[..|batch| - 1]);
      }
    }
  }

  /** Once it has arrived, an undisplaced message stays, and it displaces all before it. */
  lemma {:induction false} WinnerStays(base: Option<MessageSnapshot>, batch: seq<ChatMessage>, w: MessageSnapshot)
    requires Undisplaced(batch, w) && (base.Some? ==> Replaces(base.value, w))
    ensures var latest := LatestOf(base, batch);
      && (latest.Some? ==> Replaces(latest.value, w))
      && (w in Candidates(base, batch) ==> latest == Some(w))
  {
    if batch != [] {
      var n := |batch| - 1;
      assert Undisplaced(batch[..n], w) by {
        assert forall i :: 0 <= i < n ==> batch[..n][i] == batch[i];
      }
      WinnerStays(base, batch[..n], w);
      CandidatesSnoc(base, batch);
    }
  }

  lemma UndisplacedPermutes(a: seq<ChatMessage>, b: seq<ChatMessage>, w: MessageSnapshot)
    requires multiset(a) == multiset(b) && Undisplaced(a, w)
    ensures Undisplaced(b, w)
  {
    Sorting.SameMembers(a, b);
    forall i | 0 <= i < |b| && SnapshotOf(b[i]) != w ensures !Replaces(w, SnapshotOf(b[i])) {
      assert b[i] in a;
      var j :| 0 <= j < |a| && a[j] == b[i];
    }
  }

  lemma WinnerWins(base: Option<MessageSnapshot>, batch: seq<ChatMessage>, w: MessageSnapshot)
    requires Winner(base, batch, w)
    ensures forall p :: multiset(p) == multiset(batch) ==> LatestOf(base, p) == Some(w)
  {
    forall p | multiset(p) == multiset(batch) ensures LatestOf(base, p) == Some(w) {
      UndisplacedPermutes(batch, p, w);
      CandidatesPermute(base, batch, p);
      WinnerStays(base, p, w);
    }
  }

  lemma {:induction false} LatestOfAppend(base: Option<MessageSnapshot>, a: seq<ChatMessage>, b: seq<ChatMessage>)
    ensures LatestOf(base, a + b) == LatestOf(LatestOf(base, a), b)
  {
    if b == [] {
      assert a + b == a;
    } else {
      LatestOfAppend(base, a, b[..|b| - 1]);
      assert (a + b)[..|a + b| - 1] == a + b[..|b| - 1];
    }
  }

  lemma OrderFreeAt(base: Option<MessageSnapshot>, batch: seq<ChatMessage>, p: seq<ChatMessage>)
    requires OrderFree(base, batch) && multiset(p) == multiset(batch)
    ensures LatestOf(base, p) == LatestOf(base, batch)
  {
  }

  lemma MovedLast(batch: seq<ChatMessage>, i: nat)
    requires i < |batch|
    ensures multiset((batch[..i] + batch[i + 1..]) + [batch[i]]) == multiset(batch)
  {
    assert batch == batch[..i] + [batch[i]] + batch[i + 1..];
  }

  /** Put any message last: it must not displace the one that is always latest. */
  lemma LastLoses(base: Option<MessageSnapshot>, batch: seq<ChatMessage>, i: nat, w: MessageSnapshot)
    requires OrderFree(base, batch) && LatestOf(base, batch) == Some(w)
    requires i < |batch| && SnapshotOf(batch[i]) != w
    ensures !Replaces(w, SnapshotOf(batch[i]))
  {
    MovedLast(batch, i);
    OrderFreeAt(base, batch, (batch[..i] + batch[i + 1..]) + [batch[i]]);
    LatestOfSnoc(base, batch[..i] + batch[i + 1..], batch[i]);
  }

  function Copies(w: MessageSnapshot): ChatMessage -> bool {
    (m: ChatMessage) => SnapshotOf(m) == w
  }

  function Others(w: MessageSnapshot): ChatMessage -> bool {
    (m: ChatMessage) => SnapshotOf(m) != w
  }

  lemma {:induction false} CopiesLose(base: MessageSnapshot, copies: seq<ChatMessage>, w: MessageSnapshot)
    requires !Replaces(base, w) && forall m :: m in copies ==> SnapshotOf(m) == w
    ensures LatestOf(Some(base), copies) == Some(base)
  {
    if copies != [] {
      CopiesLose(base, copies[..|copies| - 1], w);
    }
  }

  /** Without a copy in it, a list leaves something else latest. */
  lemma OthersLeaveOther(base: MessageSnapshot, others: seq<ChatMessage>, w: MessageSnapshot)
    requires base != w && forall m :: m in others ==> SnapshotOf(m) != w
    ensures LatestOf(Some(base), others) != Some(w)
  {
    LatestIsCandidate(Some(base), others);
    assert forall i :: 0 <= i < |others| ==> others[i] in others;
  }

  lemma CopiesFirst(base: MessageSnapshot, copies: seq<ChatMessage>, others: seq<ChatMessage>, w: MessageSnapshot)
    requires base != w && !Replaces(base, w)
    requires forall m :: m in copies ==> SnapshotOf(m) == w
    requires forall m :: m in others ==> SnapshotOf(m) != w
    ensures LatestOf(Some(base), copies + others) != Some(w)
  {
    CopiesLose(base, copies, w);
    LatestOfAppend(Some(base), copies, others);
    OthersLeaveOther(base, others, w);
  }

  /** Put all copies of the latest message first: it must displace the old one. */
  lemma FirstWins(base: MessageSnapshot, batch: seq<ChatMessage>, w: MessageSnapshot)
    requires OrderFree(Some(base), batch) && LatestOf(Some(base), batch) == Some(w)
    ensures Replaces(base, w)
  {
    if base != w && !Replaces(base, w) {
      FilterSplit(batch, Copies(w), Others(w));
      FilterMembers(batch, Copies(w));
      FilterMembers(batch, Others(w));
      OrderFreeAt(Some(base), batch, Filter(batch, Copies(w)) + Filter(batch, Others(w)));
      CopiesFirst(base, Filter(batch, Copies(w)), Filter(batch, Others(w)), w);
    }
  }

  /** The latest message is the same in every order if and only if there is a winner. */
  lemma OrderFreeIff(base: Option<MessageSnapshot>, batch: seq<ChatMessage>)
    requires base.Some? || batch != []
    ensures OrderFree(base, batch) <==> exists w :: Winner(base, batch, w)
    ensures forall w :: Winner(base, batch, w) ==> LatestOf(base, batch) == Some(w)
  {
    forall w | Winner(base, batch, w) ensures OrderFree(base, batch) && LatestOf(base, batch) == Some(w) {
      WinnerWins(base, batch, w);
    }
    if OrderFree(base, batch) {
      LatestIsCandidate(base, batch);
      var w := LatestOf(base, batch).value;
      forall i | 0 <= i < |batch| && SnapshotOf(batch[i]) != w ensures !Replaces(w, SnapshotOf(batch[i])) {
        LastLoses(base, batch, i, w);
      }
      if base.Some? {
        FirstWins(base.value, batch, w);
      }
      assert Winner(base, batch, w);
    }
  }

  ghost predicate NoMutualReplacement(candidates: set<MessageSnapshot>) {
    forall s, t :: s in candidates && t in candidates && Replaces(s, t) && Replaces(t, s) ==> s == t
  }

  /** In particular there is one when all candidates or none carry a sequence number and no
      two of them tie. */
  lemma UniformOrderFree(base: Option<MessageSnapshot>, batch: seq<ChatMessage>)
    requires base.Some? || batch != []
    requires Uniform(Candidates(base, batch)) && NoMutualReplacement(Candidates(base, batch))
    ensures OrderFree(base, batch)
  {
    LatestDominates(base, batch);
    var w := LatestOf(base, batch).value;
    forall i | 0 <= i < |batch| && SnapshotOf(batch[i]) != w ensures !Replaces(w, SnapshotOf(batch[i])) {
      assert SnapshotOf(batch[i]) in Candidates(base, batch);
    }
    assert Winner(base, batch, w);
    OrderFreeIff(base, batch);
  }

  // ----- the record of one conversation -----

  /** Whatever the order of the batch, the same record results. */
  ghost predicate RecordOrderFree(owner: string, c: Option<ConversationInfo>, batch: seq<ChatMessage>)
    requires AllRoutable(owner, batch)
  {
    forall p :: multiset(p) == multiset(batch) && AllRoutable(owner, p) ==>
      FoldOne(owner, c, p) == FoldOne(owner, c, batch)
  }

  /** All messages of the batch would open the same conversation. */
  predicate SameOpening(owner: string, batch: seq<ChatMessage>) {
    forall i, j :: 0 <= i < |batch| && 0 <= j < |batch| ==> FromMessage(owner, batch[i]) == FromMessage(owner, batch[j])
  }

  lemma RoutablePermutes(owner: string, a: seq<ChatMessage>, b: seq<ChatMessage>)
    requires AllRoutable(owner, a) && multiset(a) == multiset(b)
    ensures AllRoutable(owner, b)
  {
    Sorting.SameMembers(a, b);
    forall i | 0 <= i < |b| ensures FromMessage(owner, b[i]).Ok? {
      assert b[i] in a;
      var j :| 0 <= j < |a| && a[j] == b[i];
    }
  }

  /** The record a batch starts from: the stored one, or the one its first message opens. */
  function StartRecord(owner: string, c: Option<ConversationInfo>, batch: seq<ChatMessage>): ConversationInfo
    requires AllRoutable(owner, batch) && batch != []
  {
    if c.Some? then c.value else FromMessage(owner, batch[0]).value
  }

  lemma {:induction false} OpenedByFirst(owner: string, c: Option<ConversationInfo>, batch: seq<ChatMessage>)
    requires AllRoutable(owner, batch) && batch != []
    ensures FoldOne(owner, c, batch) == FoldOne(owner, Some(StartRecord(owner, c, batch)), batch)
  {
    var n := |batch| - 1;
    if n > 0 {
      OpenedByFirst(owner, c, batch[..n]);
    } else {
      assert batch[..n] == [];
    }
  }

  /** The send time comes from the latest message if the batch brought it, else it is the old. */
  function SendTimeAfter(before: int, latest: Option<MessageSnapshot>, batch: seq<ChatMessage>): int {
    if latest.Some? && latest.value in Candidates(None, batch) then latest.value.sendTime else before
  }

  lemma {:induction false} SendTimeOf(owner: string, c: ConversationInfo, batch: seq<ChatMessage>)
    requires AllRoutable(owner, batch)
    ensures var r := FoldOne(owner, Some(c), batch).value;
      r.latestMsgSendTime == SendTimeAfter(c.latestMsgSendTime, r.latestMessage, batch)
  {
    if batch != [] {
      SendTimeOf(owner, c, batch[..|batch| - 1]);
      CandidatesSnoc(None, batch);
    }
  }

  /** What a batch makes of the record it starts from. */
  lemma FoldOneForm(owner: string, c: Option<ConversationInfo>, batch: seq<ChatMessage>)
    requires AllRoutable(owner, batch) && batch != []
    ensures var r, start := FoldOne(owner, c, batch).value, StartRecord(owner, c, batch);
      r == start.(unreadCount := r.unreadCount, maxSeq := r.maxSeq, latestMessage := LatestOf(BaseLatest(c), batch),
                  latestMsgSendTime := SendTimeAfter(start.latestMsgSendTime, LatestOf(BaseLatest(c), batch), batch))
  {
    var start := StartRecord(owner, c, batch);
    OpenedByFirst(owner, c, batch);
    FoldIsLatestOf(owner, c, batch);
    FoldKeepsRest(owner, start, batch);
    SendTimeOf(owner, start, batch);
  }

  lemma SameRecord(owner: string, c: Option<ConversationInfo>, a: seq<ChatMessage>, b: seq<ChatMessage>)
    requires AllRoutable(owner, a) && AllRoutable(owner, b) && a != [] && multiset(a) == multiset(b)
    requires LatestOf(BaseLatest(c), a) == LatestOf(BaseLatest(c), b)
    requires c.Some? || SameOpening(owner, a)
    ensures FoldOne(owner, c, a) == FoldOne(owner, c, b)
  {
    Sorting.SameMembers(a, b);
    CountsOrderIndependent(owner, c, a, b);
    CandidatesPermute(None, a, b);
    FoldOneForm(owner, c, a);
    FoldOneForm(owner, c, b);
    assert StartRecord(owner, c, a) == StartRecord(owner, c, b) by {
      assert b[0] in a;
      var i :| 0 <= i < |a| && a[i] == b[0];
      if c.None? {
        assert FromMessage(owner, a[0]) == FromMessage(owner, a[i]);
      }
    }
  }

  lemma MovedFirst(batch: seq<ChatMessage>, i: nat)
    requires i < |batch|
    ensures multiset([batch[i]] + (batch[..i] + batch[i + 1..])) == multiset(batch)
  {
    assert batch == batch[..i] + [batch[i]] + batch[i + 1..];
  }

  lemma RecordFreeAt(owner: string, c: Option<ConversationInfo>, batch: seq<ChatMessage>, p: seq<ChatMessage>)
    requires AllRoutable(owner, batch) && RecordOrderFree(owner, c, batch) && multiset(p) == multiset(batch)
    ensures AllRoutable(owner, p) && FoldOne(owner, c, p) == FoldOne(owner, c, batch)
  {
    RoutablePermutes(owner, batch, p);
  }

  lemma SameStart(owner: string, a: seq<ChatMessage>, b: seq<ChatMessage>)
    requires AllRoutable(owner, a) && AllRoutable(owner, b) && a != [] && b != []
    requires FoldOne(owner, None, a) == FoldOne(owner, None, b)
    ensures FromMessage(owner, a[0]) == FromMessage(owner, b[0])
  {
    FoldOneForm(owner, None, a);
    FoldOneForm(owner, None, b);
  }

  /** Which message comes first shows in a record it opens. */
  lemma OpeningShows(owner: string, batch: seq<ChatMessage>, i: nat)
    requires AllRoutable(owner, batch) && i < |batch|
    requires RecordOrderFree(owner, None, batch)
    ensures FromMessage(owner, batch[i]) == FromMessage(owner, batch[0])
  {
    MovedFirst(batch, i);
    RecordFreeAt(owner, None, batch, [batch[i]] + (batch[..i] + batch[i + 1..]));
    SameStart(owner, [batch[i]] + (batch[..i] + batch[i + 1..]), batch);
  }

  lemma RecordFreeNeeds(owner: string, c: Option<ConversationInfo>, batch: seq<ChatMessage>)
    requires AllRoutable(owner, batch) && batch != [] && RecordOrderFree(owner, c, batch)
    ensures OrderFree(BaseLatest(c), batch)
    ensures c.Some? || SameOpening(owner, batch)
  {
    forall p | multiset(p) == multiset(batch) ensures LatestOf(BaseLatest(c), p) == LatestOf(BaseLatest(c), batch) {
      Sorting.SameMembers(p, batch);
      RoutablePermutes(owner, batch, p);
      FoldIsLatestOf(owner, c, p);
      FoldIsLatestOf(owner, c, batch);
    }
    if c.None? {
      forall i | 0 <= i < |batch| ensures FromMessage(owner, batch[i]) == FromMessage(owner, batch[0]) {
        OpeningShows(owner, batch, i);
      }
    }
  }

  /** The record of a conversation is the same in every order if and only if there is a winner
      and, for a conversation the batch opens, all messages open the same one. */
  lemma RecordOrderFreeIff(owner: string, c: Option<ConversationInfo>, batch: seq<ChatMessage>)
    requires AllRoutable(owner, batch) && batch != []
    ensures RecordOrderFree(owner, c, batch) <==>
      (exists w :: Winner(BaseLatest(c), batch, w)) && (c.Some? || SameOpening(owner, batch))
  {
    OrderFreeIff(BaseLatest(c), batch);
    if RecordOrderFree(owner, c, batch) {
      RecordFreeNeeds(owner, c, batch);
    }
    if OrderFree(BaseLatest(c), batch) && (c.Some? || SameOpening(owner, batch)) {
      forall p | multiset(p) == multiset(batch) && AllRoutable(owner, p)
        ensures FoldOne(owner, c, p) == FoldOne(owner, c, batch)
      {
        SameRecord(owner, c, batch, p);
      }
    }
  }

  /** Valid messages filed under one id open the same record exactly if they are of a group or
      all show the owner the same peer. */
  lemma SameOpeningIff(owner: string, batch: seq<ChatMessage>)
    requires owner != "" && forall i :: 0 <= i < |batch| ==> ValidMessage(batch[i])
    requires forall i, j :: 0 <= i < |batch| && 0 <= j < |batch| ==> batch[i].conversationId == batch[j].conversationId
    ensures SameOpening(owner, batch) <==>
      forall i, j :: 0 <= i < |batch| && 0 <= j < |batch| ==>
        !OneToOne(batch[i].sessionType) || ShowSamePeer(owner, batch[i], batch[j])
  {
    forall i, j | 0 <= i < |batch| && 0 <= j < |batch|
      ensures FromMessage(owner, batch[i]) == FromMessage(owner, batch[j]) <==>
        !OneToOne(batch[i].sessionType) || ShowSamePeer(owner, batch[i], batch[j])
    {
      OpenSameIff(owner, batch[i], batch[j]);
    }
  }

  lemma SequencedTies(candidates: set<MessageSnapshot>)
    requires AllSequenced(candidates) && NoTopTie(candidates)
    ensures Uniform(candidates) && NoMutualReplacement(candidates)
  {
  }

  /** With sequence numbers and no tie at the top the whole record is the same in every order. */
  lemma {:induction false} RecordOrderIndependent(owner: string, c: Option<ConversationInfo>,
                                                  a: seq<ChatMessage>, b: seq<ChatMessage>)
    requires AllRoutable(owner, a) && AllRoutable(owner, b)
    requires multiset(a) == multiset(b)
    requires c.Some? || SameOpening(owner, a)
    requires AllSequenced(Candidates(BaseLatest(c), a)) && NoTopTie(Candidates(BaseLatest(c), a))
    ensures FoldOne(owner, c, a) == FoldOne(owner, c, b)
  {
    Sorting.SameMembers(a, b);
    if a != [] {
      SequencedTies(Candidates(BaseLatest(c), a));
      UniformOrderFree(BaseLatest(c), a);
      OrderFreeAt(BaseLatest(c), a, b);
      SameRecord(owner, c, a, b);
    }
  }

  // ----- whole batches -----

  /** Whatever the order of the batch, all conversations end up the same. */
  ghost predicate BatchOrderFree(conversations: Conversations, owner: string, batch: seq<ChatMessage>) {
    forall p :: multiset(p) == multiset(batch) ==>
      FoldAll(conversations, owner, p) == FoldAll(conversations, owner, batch)
  }

  function Part(batch: seq<ChatMessage>, id: string): seq<ChatMessage> {
    Filter(batch, ForConversation(id))
  }

  /** The messages of one conversation have a winner and open one record if they open one. */
  ghost predicate PartOrderFree(conversations: Conversations, owner: string, batch: seq<ChatMessage>, id: string) {
    var c := Lookup(conversations, (owner, id));
    (exists w :: Winner(BaseLatest(c), Part(batch, id), w)) && (c.Some? || SameOpening(owner, Part(batch, id)))
  }

  function Elsewhere(id: string): ChatMessage -> bool {
    (m: ChatMessage) => m.conversationId != id
  }

  lemma PartFirst(batch: seq<ChatMessage>, id: string, p: seq<ChatMessage>)
    requires multiset(p) == multiset(Part(batch, id))
    ensures multiset(p + Filter(batch, Elsewhere(id))) == multiset(batch)
    ensures Part(p + Filter(batch, Elsewhere(id)), id) == p
  {
    var rest := Filter(batch, Elsewhere(id));
    FilterSplit(batch, ForConversation(id), Elsewhere(id));
    FilterMembers(batch, ForConversation(id));
    FilterMembers(batch, Elsewhere(id));
    Sorting.SameMembers(p, Part(batch, id));
    FilterAppend(p, rest, ForConversation(id));
    FilterEverything(p, ForConversation(id));
    FilterNothing(rest, ForConversation(id));
    assert p + [] == p;
  }

  lemma BatchFreeNeeds(conversations: Conversations, owner: string, batch: seq<ChatMessage>, id: string)
    requires AllRoutable(owner, batch) && BatchOrderFree(conversations, owner, batch)
    ensures AllRoutable(owner, Part(batch, id))
    ensures RecordOrderFree(owner, Lookup(conversations, (owner, id)), Part(batch, id))
  {
    var k := (owner, id);
    FoldAllByConversation(conversations, owner, batch, k);
    forall p | multiset(p) == multiset(Part(batch, id)) && AllRoutable(owner, p)
      ensures FoldOne(owner, Lookup(conversations, k), p) == FoldOne(owner, Lookup(conversations, k), Part(batch, id))
    {
      var whole := p + Filter(batch, Elsewhere(id));
      PartFirst(batch, id, p);
      RoutablePermutes(owner, batch, whole);
      FoldAllByConversation(conversations, owner, whole, k);
      assert FoldAll(conversations, owner, whole) == FoldAll(conversations, owner, batch);
    }
  }

  lemma PartsSuffice(conversations: Conversations, owner: string, batch: seq<ChatMessage>, p: seq<ChatMessage>,
                     k: (string, string))
    requires AllRoutable(owner, batch) && multiset(p) == multiset(batch)
    requires forall m :: m in batch ==> PartOrderFree(conversations, owner, batch, m.conversationId)
    ensures Lookup(FoldAll(conversations, owner, p), k) == Lookup(FoldAll(conversations, owner, batch), k)
  {
    RoutablePermutes(owner, batch, p);
    FoldAllByConversation(conversations, owner, batch, k);
    FoldAllByConversation(conversations, owner, p, k);
    FilterPermutes(batch, p, ForConversation(k.1));
    var part := Part(batch, k.1);
    Sorting.SameMembers(part, Part(p, k.1));
    if k.0 == owner && part != [] {
      FilterMembers(batch, ForConversation(k.1));
      assert part[0] in batch && part[0].conversationId == k.1 by {
        assert part[0] in part;
      }
      assert PartOrderFree(conversations, owner, batch, k.1);
      RecordOrderFreeIff(owner, Lookup(conversations, k), part);
      assert multiset(Part(p, k.1)) == multiset(part);
    }
  }

  /** A batch leaves the same conversations in every order if and only if, for each of them,
      its own messages have a winner and, if they open it, open the same one. */
  lemma BatchOrderFreeIff(conversations: Conversations, owner: string, batch: seq<ChatMessage>)
    requires AllRoutable(owner, batch)
    ensures BatchOrderFree(conversations, owner, batch) <==>
      forall m :: m in batch ==> PartOrderFree(conversations, owner, batch, m.conversationId)
  {
    if BatchOrderFree(conversations, owner, batch) {
      forall m | m in batch ensures PartOrderFree(conversations, owner, batch, m.conversationId) {
        BatchFreeNeeds(conversations, owner, batch, m.conversationId);
        FilterMembers(batch, ForConversation(m.conversationId));
        assert m in Part(batch, m.conversationId);
        RecordOrderFreeIff(owner, Lookup(conversations, (owner, m.conversationId)), Part(batch, m.conversationId));
      }
    }
    if forall m :: m in batch ==> PartOrderFree(conversations, owner, batch, m.conversationId) {
      forall p | multiset(p) == multiset(batch)
        ensures FoldAll(conversations, owner, p) == FoldAll(conversations, owner, batch)
      {
        forall k ensures Lookup(FoldAll(conversations, owner, p), k) == Lookup(FoldAll(conversations, owner, batch), k) {
          PartsSuffice(conversations, owner, batch, p, k);
        }
        ScopeSync.MapsEqual(FoldAll(conversations, owner, p), FoldAll(conversations, owner, batch));
      }
    }
  }
}
