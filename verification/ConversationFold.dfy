/** Folding a batch of messages into the conversations, one after the other.

    The order in which messages arrive is nobody's promise.  These theorems say what of the
    result does not depend on it. */
module ConversationFold {
  import opened Common
  import Sorting
  import opened Message
  import opened Conversation

  type Conversations = map<(string, string), ConversationInfo>

  function FoldAll(conversations: Conversations, owner: string, batch: seq<ChatMessage>): Conversations {
    if batch == [] then conversations else
    FoldInto(FoldAll(conversations, owner, batch[..|batch| - 1]), owner, batch[|batch| - 1])
  }

  function ForConversation(id: string): ChatMessage -> bool {
    (m: ChatMessage) => m.conversationId == id
  }

  /** Every message of the batch can open a conversation. */
  predicate AllRoutable(owner: string, batch: seq<ChatMessage>) {
    forall i :: 0 <= i < |batch| ==> FromMessage(owner, batch[i]).Ok?
  }

  /** The messages of one conversation folded into it, or into a new one. */
  function FoldOne(owner: string, c: Option<ConversationInfo>, batch: seq<ChatMessage>): Option<ConversationInfo>
    requires AllRoutable(owner, batch)
    ensures FoldOne(owner, c, batch).Some? <==> c.Some? || batch != []
  {
    if batch == [] then c else
    var m := batch[|batch| - 1];
    var before := FoldOne(owner, c, batch[..|batch| - 1]);
    Some(Fold(owner, if before.Some? then before.value else FromMessage(owner, m).value, m))
  }

  lemma RoutablePart(owner: string, batch: seq<ChatMessage>, id: string)
    requires AllRoutable(owner, batch)
    ensures AllRoutable(owner, Filter(batch, ForConversation(id)))
  {
    FilterMembers(batch, ForConversation(id));
    var part := Filter(batch, ForConversation(id));
    forall i | 0 <= i < |part| ensures FromMessage(owner, part[i]).Ok? {
      assert part[i] in part;
    }
  }

  /** One message moves one entry. */
  lemma FoldIntoEntry(conversations: Conversations, owner: string, m: ChatMessage, k: (string, string))
    requires FromMessage(owner, m).Ok?
    ensures Lookup(FoldInto(conversations, owner, m), k)
         == if k == (owner, m.conversationId)
            then Some(Fold(owner, if k in conversations then conversations[k] else FromMessage(owner, m).value, m))
            else Lookup(conversations, k)
  {
  }

  lemma FoldOneSnoc(owner: string, c: Option<ConversationInfo>, batch: seq<ChatMessage>, m: ChatMessage)
    requires AllRoutable(owner, batch) && FromMessage(owner, m).Ok?
    ensures AllRoutable(owner, batch + [m])
    ensures FoldOne(owner, c, batch + [m])
         == (var before := FoldOne(owner, c, batch);
             Some(Fold(owner, if before.Some? then before.value else FromMessage(owner, m).value, m)))
  {
    assert (batch + [m])[..|batch + [m]| - 1] == batch;
  }

  /** Conversations do not disturb each other: each ends as its own messages leave it, and
      nothing of another owner moves. */
  lemma {:induction false} FoldAllByConversation(conversations: Conversations, owner: string,
                                                 batch: seq<ChatMessage>, k: (string, string))
    requires AllRoutable(owner, batch)
    ensures AllRoutable(owner, Filter(batch, ForConversation(k.1)))
    ensures Lookup(FoldAll(conversations, owner, batch), k)
         == if k.0 == owner
            then FoldOne(owner, Lookup(conversations, k), Filter(batch, ForConversation(k.1)))
            else Lookup(conversations, k)
  {
    RoutablePart(owner, batch, k.1);
    if batch != [] {
      var n := |batch| - 1;
      FoldAllByConversation(conversations, owner, batch[..n], k);
      FoldIntoEntry(FoldAll(conversations, owner, batch[..n]), owner, batch[n], k);
      var part := Filter(batch[..n], ForConversation(k.1));
      if batch[n].conversationId == k.1 {
        FoldOneSnoc(owner, Lookup(conversations, k), part, batch[n]);
      } else {
        assert part + [] == part;
      }
    }
  }

  // ----- what a fold leaves -----

  function CountUnread(owner: string, batch: seq<ChatMessage>): nat {
    if batch == [] then 0 else
    CountUnread(owner, batch[..|batch| - 1]) + (if CountsUnread(owner, batch[|batch| - 1]) then 1 else 0)
  }

  function MaxSeqOf(base: int, batch: seq<ChatMessage>): int {
    if batch == [] then base else
    Max(MaxSeqOf(base, batch[..|batch| - 1]), batch[|batch| - 1].seqNo)
  }

  function BaseUnread(c: Option<ConversationInfo>): nat {
    if c.Some? then c.value.unreadCount as nat else 0
  }

  function BaseSeq(c: Option<ConversationInfo>): int {
    if c.Some? then c.value.maxSeq else 0
  }

  function BaseLatest(c: Option<ConversationInfo>): Option<MessageSnapshot> {
    if c.Some? then c.value.latestMessage else None
  }

  /** The latest message alone, as the fold moves it. */
  function LatestOf(base: Option<MessageSnapshot>, batch: seq<ChatMessage>): Option<MessageSnapshot> {
    if batch == [] then base else
    var latest, m := LatestOf(base, batch[..|batch| - 1]), SnapshotOf(batch[|batch| - 1]);
    if latest.None? || Replaces(latest.value, m) then Some(m) else latest
  }

  lemma LatestOfSnoc(base: Option<MessageSnapshot>, batch: seq<ChatMessage>, m: ChatMessage)
    ensures var latest := LatestOf(base, batch);
      LatestOf(base, batch + [m])
        == if latest.None? || Replaces(latest.value, SnapshotOf(m)) then Some(SnapshotOf(m)) else latest
  {
    assert (batch + [m])[..|batch + [m]| - 1] == batch;
  }

  lemma {:induction false} FoldIsLatestOf(owner: string, c: Option<ConversationInfo>, batch: seq<ChatMessage>)
    requires AllRoutable(owner, batch) && batch != []
    ensures FoldOne(owner, c, batch).value.latestMessage == LatestOf(BaseLatest(c), batch)
  {
    var n := |batch| - 1;
    if n > 0 {
      FoldIsLatestOf(owner, c, batch[..n]);
    } else {
      assert batch[..n] == [];
    }
  }

  /** The snapshots that compete for the place of the latest message. */
  function Candidates(base: Option<MessageSnapshot>, batch: seq<ChatMessage>): set<MessageSnapshot> {
    (if base.Some? then {base.value} else {}) + (set i | 0 <= i < |batch| :: SnapshotOf(batch[i]))
  }

  /** All candidates carry a server sequence number, or none does. */
  ghost predicate Uniform(candidates: set<MessageSnapshot>) {
    (forall s :: s in candidates ==> s.seqNo > 0) || (forall s :: s in candidates ==> s.seqNo <= 0)
  }

  lemma CandidatesSnoc(base: Option<MessageSnapshot>, batch: seq<ChatMessage>)
    requires batch != []
    ensures Candidates(base, batch)
         == Candidates(base, batch[..|batch| - 1]) + {SnapshotOf(batch[|batch| - 1])}
  {
    assert forall i :: 0 <= i < |batch| - 1 ==> batch[..|batch| - 1][i] == batch[i];
  }

  ghost predicate Dominates(latest: MessageSnapshot, candidates: set<MessageSnapshot>) {
    latest in candidates && forall s :: s in candidates ==> Replaces(s, latest)
  }

  /** Adding a candidate to a uniform set and taking the winner keeps a dominating one. */
  lemma DominatesStep(latest: MessageSnapshot, m: MessageSnapshot, candidates: set<MessageSnapshot>)
    requires Dominates(latest, candidates) && Uniform(candidates + {m})
    ensures Dominates(if Replaces(latest, m) then m else latest, candidates + {m})
  {
    assert latest in candidates + {m} && m in candidates + {m};
    forall s | s in candidates + {m} ensures Replaces(s, if Replaces(latest, m) then m else latest) {
    }
  }

  lemma {:induction false} LatestDominates(base: Option<MessageSnapshot>, batch: seq<ChatMessage>)
    requires base.Some? || batch != []
    requires Uniform(Candidates(base, batch))
    ensures LatestOf(base, batch).Some?
    ensures Dominates(LatestOf(base, batch).value, Candidates(base, batch))
  {
    if batch != [] {
      var n := |batch| - 1;
      CandidatesSnoc(base, batch);
      if base.Some? || n > 0 {
        LatestDominates(base, batch[..n]);
        DominatesStep(LatestOf(base, batch[..n]).value, SnapshotOf(batch[n]), Candidates(base, batch[..n]));
      } else {
        assert batch[..n] == [];
      }
    }
  }

  /** The snapshots that compete for the place of the latest message, in order of arrival. */
  function Line(base: Option<MessageSnapshot>, batch: seq<ChatMessage>): (line: seq<MessageSnapshot>)
    ensures |line| == (if base.Some? then 1 else 0) + |batch|
    ensures forall i :: 0 <= i < |batch| ==> line[|line| - |batch| + i] == SnapshotOf(batch[i])
    ensures base.Some? ==> line[0] == base.value
  {
    (if base.Some? then [base.value] else []) + seq(|batch|, i requires 0 <= i < |batch| => SnapshotOf(batch[i]))
  }

  /** `b` is at least as new as `a`: by sequence number and then time, or by time alone. */
  predicate AsNew(a: MessageSnapshot, b: MessageSnapshot, sequenced: bool) {
    if sequenced then a.seqNo < b.seqNo || (a.seqNo == b.seqNo && a.sendTime <= b.sendTime)
    else a.sendTime <= b.sendTime
  }

  /** Place `i` of the line is the last of the newest ones. */
  ghost predicate LastNewest(line: seq<MessageSnapshot>, i: nat, sequenced: bool) {
    && i < |line|
    && (forall j :: 0 <= j <= i ==> AsNew(line[j], line[i], sequenced))
    && (forall j :: i < j < |line| ==> !AsNew(line[i], line[j], sequenced))
  }

  lemma LastNewestStep(line: seq<MessageSnapshot>, i: nat, m: MessageSnapshot, sequenced: bool)
    requires LastNewest(line, i, sequenced)
    ensures LastNewest(line + [m], if AsNew(line[i], m, sequenced) then |line| else i, sequenced)
  {
  }

  predicate SameKind(line: seq<MessageSnapshot>, sequenced: bool) {
    forall i :: 0 <= i < |line| ==> (line[i].seqNo > 0 <==> sequenced)
  }

  lemma LineSnoc(base: Option<MessageSnapshot>, batch: seq<ChatMessage>)
    requires batch != []
    ensures Line(base, batch) == Line(base, batch[..|batch| - 1]) + [SnapshotOf(batch[|batch| - 1])]
  {
  }

  lemma NewestAfter(line: seq<MessageSnapshot>, i: nat, m: MessageSnapshot, sequenced: bool) returns (now: nat)
    requires LastNewest(line, i, sequenced) && SameKind(line + [m], sequenced)
    ensures LastNewest(line + [m], now, sequenced)
    ensures (line + [m])[now] == if Replaces(line[i], m) then m else line[i]
  {
    assert (line + [m])[i] == line[i] && (line + [m])[|line|] == m;
    SameNewness(line[i], m, sequenced);
    LastNewestStep(line, i, m, sequenced);
    now := if AsNew(line[i], m, sequenced) then |line| else i;
  }

  lemma FirstIsNewest(m: MessageSnapshot, sequenced: bool)
    ensures LastNewest([m], 0, sequenced)
  {
  }

  /** Where all competitors have a sequence number, or none has, the latest message is the newest
      one, and among equally new ones the last to arrive. */
  lemma {:induction false} LatestIsLastNewest(base: Option<MessageSnapshot>, batch: seq<ChatMessage>, sequenced: bool)
    returns (i: nat)
    requires base.Some? || batch != []
    requires SameKind(Line(base, batch), sequenced)
    ensures LastNewest(Line(base, batch), i, sequenced)
    ensures LatestOf(base, batch) == Some(Line(base, batch)[i])
  {
    if batch == [] {
      FirstIsNewest(base.value, sequenced);
      assert Line(base, batch) == [base.value];
      i := 0;
    } else {
      var n := |batch| - 1;
      var line, m := Line(base, batch[..n]), SnapshotOf(batch[n]);
      LineSnoc(base, batch);
      if line == [] {
        assert batch[..n] == [] && line + [m] == [m];
        FirstIsNewest(m, sequenced);
        i := 0;
      } else {
        assert forall k :: 0 <= k < |line| ==> line[k] == (line + [m])[k];
        i := LatestIsLastNewest(base, batch[..n], sequenced);
        i := NewestAfter(line, i, m, sequenced);
      }
    }
  }

  lemma SameNewness(latest: MessageSnapshot, m: MessageSnapshot, sequenced: bool)
    requires (latest.seqNo > 0 <==> sequenced) && (m.seqNo > 0 <==> sequenced)
    ensures Replaces(latest, m) <==> AsNew(latest, m, sequenced)
  {
  }

  lemma {:induction false} FoldCounts(owner: string, c: Option<ConversationInfo>, batch: seq<ChatMessage>)
    requires AllRoutable(owner, batch) && batch != []
    ensures var r := FoldOne(owner, c, batch).value;
      && r.unreadCount as nat == Min(U32_MAX, BaseUnread(c) + CountUnread(owner, batch))
      && r.maxSeq == MaxSeqOf(BaseSeq(c), batch)
  {
    var n := |batch| - 1;
    var before := FoldOne(owner, c, batch[..n]);
    FoldExact(owner, if before.Some? then before.value else FromMessage(owner, batch[n]).value, batch[n]);
    if n > 0 {
      FoldCounts(owner, c, batch[..n]);
    } else {
      assert batch[..n] == [];
    }
  }

  /** The messages of the batch that somebody else sent and that are neither read nor revoked. */
  function UnreadAt(owner: string, batch: seq<ChatMessage>): set<nat> {
    set i: nat | i < |batch| && batch[i].sendId != owner && !batch[i].isRead && !batch[i].revoked
  }

  lemma {:induction false} CountUnreadIs(owner: string, batch: seq<ChatMessage>)
    ensures CountUnread(owner, batch) == |UnreadAt(owner, batch)|
  {
    if batch != [] {
      var n := |batch| - 1;
      CountUnreadIs(owner, batch[..n]);
      var m := batch[n];
      var last := m.sendId != owner && !m.isRead && !m.revoked;
      assert UnreadAt(owner, batch) == UnreadAt(owner, batch[..n]) + (if last then {n} else {});
      assert n !in UnreadAt(owner, batch[..n]);
    }
  }

  /** The unread count after a batch, told by the messages themselves. */
  lemma UnreadCountExact(owner: string, c: Option<ConversationInfo>, batch: seq<ChatMessage>)
    requires AllRoutable(owner, batch) && batch != []
    ensures FoldOne(owner, c, batch).value.unreadCount as nat
         == Min(U32_MAX, (if c.Some? then c.value.unreadCount as nat else 0)
                + |set i: nat | i < |batch| && batch[i].sendId != owner && !batch[i].isRead && !batch[i].revoked|)
  {
    FoldCounts(owner, c, batch);
    CountUnreadIs(owner, batch);
  }

  /** The stored send time follows the latest message, unless nothing displaced the old one. */
  lemma {:induction false} FoldSendTime(owner: string, c: Option<ConversationInfo>, batch: seq<ChatMessage>)
    requires AllRoutable(owner, batch) && batch != []
    requires c.Some? && c.value.latestMessage.Some? ==>
      c.value.latestMsgSendTime == c.value.latestMessage.value.sendTime
    ensures var r := FoldOne(owner, c, batch).value;
      r.latestMessage.Some? && r.latestMsgSendTime == r.latestMessage.value.sendTime
  {
    var n := |batch| - 1;
    if n > 0 {
      FoldSendTime(owner, c, batch[..n]);
    } else {
      assert batch[..n] == [];
    }
  }

  // ----- order independence -----

  lemma {:induction false} CountUnreadSum(owner: string, a: seq<ChatMessage>, b: seq<ChatMessage>)
    ensures CountUnread(owner, a + b) == CountUnread(owner, a) + CountUnread(owner, b)
  {
    if b == [] {
      assert a + b == a;
    } else {
      CountUnreadSum(owner, a, b[..|b| - 1]);
      assert (a + b)[..|a + b| - 1] == a + b[..|b| - 1];
    }
  }

  /** Where the last element of a rearrangement sits in the original. */
  lemma Extract<T>(a: seq<T>, b: seq<T>) returns (i: nat)
    requires multiset(a) == multiset(b) && b != []
    ensures i < |a| && a[i] == b[|b| - 1]
  {
    var x := b[|b| - 1];
    assert x in multiset(a);
    assert x in a;
    i :| 0 <= i < |a| && a[i] == x;
  }

  lemma WithoutOne<T>(a: seq<T>, i: nat)
    requires i < |a|
    ensures a == a[..i] + [a[i]] + a[i + 1..]
    ensures multiset(a[..i] + a[i + 1..]) == multiset(a) - multiset{a[i]}
  {
    assert a == a[..i] + [a[i]] + a[i + 1..];
  }

  lemma WithoutLast<T>(a: seq<T>)
    requires a != []
    ensures multiset(a[..|a| - 1]) == multiset(a) - multiset{a[|a| - 1]}
  {
    assert a == a[..|a| - 1] + [a[|a| - 1]];
  }

  lemma {:induction false} CountUnreadPermutes(owner: string, a: seq<ChatMessage>, b: seq<ChatMessage>)
    requires multiset(a) == multiset(b)
    ensures CountUnread(owner, a) == CountUnread(owner, b)
  {
    if b == [] {
      assert |multiset(a)| == |a|;
    } else {
      var i := Extract(a, b);
      WithoutOne(a, i);
      WithoutLast(b);
      CountUnreadPermutes(owner, a[..i] + a[i + 1..], b[..|b| - 1]);
      CountUnreadSum(owner, a[..i], a[i + 1..]);
      CountUnreadSum(owner, a[..i] + [a[i]], a[i + 1..]);
      assert (a[..i] + [a[i]])[..i] == a[..i];
    }
  }

  lemma {:induction false} MaxSeqIsMax(base: int, batch: seq<ChatMessage>)
    ensures base <= MaxSeqOf(base, batch)
    ensures forall m :: m in batch ==> m.seqNo <= MaxSeqOf(base, batch)
    ensures MaxSeqOf(base, batch) == base || exists m :: m in batch && m.seqNo == MaxSeqOf(base, batch)
  {
    if batch != [] {
      var n := |batch| - 1;
      MaxSeqIsMax(base, batch[..n]);
      assert batch == batch[..n] + [batch[n]];
    }
  }

  lemma CandidatesInclude(base: Option<MessageSnapshot>, a: seq<ChatMessage>, b: seq<ChatMessage>)
    requires forall x :: x in a ==> x in b
    ensures Candidates(base, a) <= Candidates(base, b)
  {
    forall i | 0 <= i < |a| ensures SnapshotOf(a[i]) in Candidates(base, b) {
      assert a[i] in b;
      var j :| 0 <= j < |b| && b[j] == a[i];
    }
  }

  lemma CandidatesPermute(base: Option<MessageSnapshot>, a: seq<ChatMessage>, b: seq<ChatMessage>)
    requires multiset(a) == multiset(b)
    ensures Candidates(base, a) == Candidates(base, b)
  {
    Sorting.SameMembers(a, b);
    CandidatesInclude(base, a, b);
    CandidatesInclude(base, b, a);
  }

  /** Rearranging the messages of a conversation changes neither its unread count nor its
      highest sequence number. */
  lemma CountsOrderIndependent(owner: string, c: Option<ConversationInfo>, a: seq<ChatMessage>, b: seq<ChatMessage>)
    requires AllRoutable(owner, a) && AllRoutable(owner, b) && a != []
    requires multiset(a) == multiset(b)
    ensures b != []
    ensures FoldOne(owner, c, a).value.unreadCount == FoldOne(owner, c, b).value.unreadCount
    ensures FoldOne(owner, c, a).value.unreadCount as nat
         == Min(U32_MAX, BaseUnread(c) + CountUnread(owner, a))
    ensures FoldOne(owner, c, a).value.maxSeq == FoldOne(owner, c, b).value.maxSeq
    ensures FoldOne(owner, c, a).value.maxSeq == MaxSeqOf(BaseSeq(c), a)
  {
    Sorting.SameMembers(a, b);
    FoldCounts(owner, c, a);
    FoldCounts(owner, c, b);
    CountUnreadPermutes(owner, a, b);
    MaxSeqIsMax(BaseSeq(c), a);
    MaxSeqIsMax(BaseSeq(c), b);
  }

  /** Nor does it change which place in the order the latest message takes: the greatest
      (seq, time) when the candidates carry sequence numbers, the greatest time when none
      does. */
  lemma LatestOrderIndependent(owner: string, c: Option<ConversationInfo>, a: seq<ChatMessage>, b: seq<ChatMessage>)
    requires AllRoutable(owner, a) && AllRoutable(owner, b) && a != []
    requires multiset(a) == multiset(b)
    requires Uniform(Candidates(BaseLatest(c), a))
    ensures b != []
    ensures FoldOne(owner, c, a).value.latestMessage.Some? && FoldOne(owner, c, b).value.latestMessage.Some?
    ensures Dominates(FoldOne(owner, c, a).value.latestMessage.value, Candidates(BaseLatest(c), a))
    ensures Dominates(FoldOne(owner, c, b).value.latestMessage.value, Candidates(BaseLatest(c), a))
  {
    Sorting.SameMembers(a, b);
    CandidatesPermute(BaseLatest(c), a, b);
    FoldIsLatestOf(owner, c, a);
    FoldIsLatestOf(owner, c, b);
    LatestDominates(BaseLatest(c), a);
    LatestDominates(BaseLatest(c), b);
  }

  ghost predicate AllSequenced(candidates: set<MessageSnapshot>) {
    forall s :: s in candidates ==> s.seqNo > 0
  }

  /** No two different candidates share sequence number and time. */
  ghost predicate NoTopTie(candidates: set<MessageSnapshot>) {
    forall s, t :: s in candidates && t in candidates && s.seqNo == t.seqNo && s.sendTime == t.sendTime ==> s == t
  }

  /** For messages with sequence numbers the latest message is the lexicographic maximum of
      (seq, time), and the same message in every order unless candidates tie. */
  lemma LatestIsLexicographicMaximum(owner: string, c: Option<ConversationInfo>, a: seq<ChatMessage>, b: seq<ChatMessage>)
    requires AllRoutable(owner, a) && AllRoutable(owner, b) && a != []
    requires multiset(a) == multiset(b)
    requires AllSequenced(Candidates(BaseLatest(c), a))
    ensures b != []
    ensures FoldOne(owner, c, a).value.latestMessage.Some? && FoldOne(owner, c, b).value.latestMessage.Some?
    ensures var la, lb := FoldOne(owner, c, a).value.latestMessage.value, FoldOne(owner, c, b).value.latestMessage.value;
      && la.seqNo == lb.seqNo && la.sendTime == lb.sendTime
      && la in Candidates(BaseLatest(c), a)
      && (forall s :: s in Candidates(BaseLatest(c), a) ==>
            s.seqNo < la.seqNo || (s.seqNo == la.seqNo && s.sendTime <= la.sendTime))
      && (NoTopTie(Candidates(BaseLatest(c), a)) ==> la == lb)
  {
    LatestOrderIndependent(owner, c, a, b);
  }

  /** Everything else of an existing conversation stays. */
  lemma {:induction false} FoldKeepsRest(owner: string, c: ConversationInfo, batch: seq<ChatMessage>)
    requires AllRoutable(owner, batch)
    ensures var r := FoldOne(owner, Some(c), batch).value;
      r == c.(unreadCount := r.unreadCount, maxSeq := r.maxSeq, latestMessage := r.latestMessage,
              latestMsgSendTime := r.latestMsgSendTime)
  {
    if batch != [] {
      FoldKeepsRest(owner, c, batch[..|batch| - 1]);
    }
  }

  /** A text message from "b" to "a". */
  function Sample(id: string, seqNo: int, time: int): ChatMessage {
    ChatMessage(id, None, "si_a_b", "b", "a", "", Single, Text, TextContent("hi"), false, SendSuccess,
                seqNo, time, time, "", "", "", false)
  }

  lemma LatestOfThree(x: ChatMessage, y: ChatMessage, z: ChatMessage)
    ensures var first := if Replaces(SnapshotOf(x), SnapshotOf(y)) then y else x;
      LatestOf(None, [x, y, z])
        == Some(SnapshotOf(if Replaces(SnapshotOf(first), SnapshotOf(z)) then z else first))
  {
    LatestOfSnoc(None, [], x);
    assert [] + [x] == [x];
    LatestOfSnoc(None, [x], y);
    assert [x] + [y] == [x, y];
    LatestOfSnoc(None, [x, y], z);
    assert [x, y] + [z] == [x, y, z];
  }

  /** Without uniform sequence numbers the order does matter: a message that has none yet
      is compared by time, and the comparison stops being transitive. */
  lemma MixedSequenceExample()
    ensures var x, y, z := Sample("x", 5, 1), Sample("y", 0, 2), Sample("z", 3, 3);
      && AllRoutable("a", [x, y, z]) && AllRoutable("a", [z, y, x])
      && FoldOne("a", None, [x, y, z]).value.latestMessage == Some(SnapshotOf(z))
      && FoldOne("a", None, [z, y, x]).value.latestMessage == Some(SnapshotOf(x))
  {
    var x, y, z := Sample("x", 5, 1), Sample("y", 0, 2), Sample("z", 3, 3);
    LatestOfThree(x, y, z);
    FoldIsLatestOf("a", None, [x, y, z]);
    LatestOfThree(z, y, x);
    FoldIsLatestOf("a", None, [z, y, x]);
  }

  /** Whole batches over many conversations: rearranging the batch leaves every conversation
      with the same unread count and highest sequence number. */
  lemma BatchOrderIndependent(conversations: Conversations, owner: string, a: seq<ChatMessage>, b: seq<ChatMessage>,
                              k: (string, string))
    requires AllRoutable(owner, a) && multiset(a) == multiset(b)
    requires forall i :: 0 <= i < |a| ==> a[i].seqNo > 0
    requires forall c :: c in conversations.Values && c.latestMessage.Some? ==> c.latestMessage.value.seqNo > 0
    ensures AllRoutable(owner, b)
    ensures var ca, cb := Lookup(FoldAll(conversations, owner, a), k), Lookup(FoldAll(conversations, owner, b), k);
      && (ca == cb == Lookup(conversations, k)
          || (ca.Some? && cb.Some? && SamePlace(ca.value, cb.value)))
  {
    Sorting.SameMembers(a, b);
    forall i | 0 <= i < |b| ensures FromMessage(owner, b[i]).Ok? {
      assert b[i] in a;
      var j :| 0 <= j < |a| && a[j] == b[i];
    }
    FoldAllByConversation(conversations, owner, a, k);
    FoldAllByConversation(conversations, owner, b, k);
    var pa, pb := Filter(a, ForConversation(k.1)), Filter(b, ForConversation(k.1));
    FilterPermutes(a, b, ForConversation(k.1));
    Sorting.SameMembers(pa, pb);
    if k.0 == owner && pa != [] {
      var c := Lookup(conversations, k);
      PartSequenced(conversations, k, a);
      CountsOrderIndependent(owner, c, pa, pb);
      LatestIsLexicographicMaximum(owner, c, pa, pb);
    }
  }

  /** Two records agree on everything a list of conversations is ordered and marked by. */
  predicate SamePlace(a: ConversationInfo, b: ConversationInfo) {
    && a.unreadCount == b.unreadCount && a.maxSeq == b.maxSeq
    && a.latestMessage.Some? && b.latestMessage.Some?
    && a.latestMessage.value.seqNo == b.latestMessage.value.seqNo
    && a.latestMessage.value.sendTime == b.latestMessage.value.sendTime
  }

  lemma PartSequenced(conversations: Conversations, k: (string, string), a: seq<ChatMessage>)
    requires forall i :: 0 <= i < |a| ==> a[i].seqNo > 0
    requires forall c :: c in conversations.Values && c.latestMessage.Some? ==> c.latestMessage.value.seqNo > 0
    ensures AllSequenced(Candidates(BaseLatest(Lookup(conversations, k)), Filter(a, ForConversation(k.1))))
  {
    var base, part := BaseLatest(Lookup(conversations, k)), Filter(a, ForConversation(k.1));
    FilterMembers(a, ForConversation(k.1));
    forall i | 0 <= i < |part| ensures part[i].seqNo > 0 {
      assert part[i] in a;
    }
    if base.Some? {
      assert conversations[k] in conversations.Values;
    }
  }

  lemma {:induction false} FilterPermutes<T>(a: seq<T>, b: seq<T>, p: T -> bool)
    requires multiset(a) == multiset(b)
    ensures multiset(Filter(a, p)) == multiset(Filter(b, p))
  {
    if b == [] {
      assert |multiset(a)| == |a|;
    } else {
      var i := Extract(a, b);
      WithoutOne(a, i);
      WithoutLast(b);
      var x := a[i];
      FilterPermutes(a[..i] + a[i + 1..], b[..|b| - 1], p);
      FilterAppend(a[..i], a[i + 1..], p);
      FilterAppend(a[..i] + [x], a[i + 1..], p);
      FilterSnoc(a[..i], x, p);
    }
  }
}
