/** The events listeners see, and two automata that say which orders of them make sense. */
module SessionEvents {
  import opened Common
  import Message
  import Conversation
  import SessionResources
  import Dispatch

  datatype SessionEvent =
    | Initialized
    | LoggedIn(userId: string)
    | LoggedOut(userId: string)
    | Uninitialized
    | TaskStarted(name: string)
    | TaskStopped(name: string)
    | ResourceOpened(kind: SessionResources.ResourceKind, name: string)
    | ResourceClosed(kind: SessionResources.ResourceKind, name: string)
    | NewMessages(messages: seq<Message.ChatMessage>)
    | NewConversations(conversations: seq<Conversation.ConversationInfo>)
    | ConversationChanged(conversations: seq<Conversation.ConversationInfo>)
    | TotalUnreadCountChanged(totalUnread: u32)

  /** Events about messages, conversations and unread totals. */
  predicate NeedsUser(e: SessionEvent) {
    e.NewMessages? || e.NewConversations? || e.ConversationChanged? || e.TotalUnreadCountChanged?
  }

  predicate EndsLogin(e: SessionEvent) {
    e.LoggedOut? || e.Uninitialized?
  }

  predicate AboutTask(e: SessionEvent) {
    e.TaskStarted? || e.TaskStopped?
  }

  // ----- who is logged in, told from the events alone -----

  datatype Trace = Nobody | In(user: string) | Broken

  function TraceStep(t: Trace, e: SessionEvent): Trace {
    if t.Broken? then Broken
    else if e.LoggedIn? then (if t.Nobody? then In(e.userId) else Broken)
    else if e.LoggedOut? then (if t == In(e.userId) then Nobody else Broken)
    else if e.Uninitialized? then Nobody
    else if NeedsUser(e) && !t.In? then Broken
    else t
  }

  function TraceFrom(t: Trace, events: seq<SessionEvent>): Trace {
    if events == [] then t else TraceStep(TraceFrom(t, events[..|events| - 1]), events[|events| - 1])
  }

  lemma {:induction false} TraceAppend(t: Trace, a: seq<SessionEvent>, b: seq<SessionEvent>)
    ensures TraceFrom(t, a + b) == TraceFrom(TraceFrom(t, a), b)
  {
    if b == [] {
      assert a + b == a;
    } else {
      TraceAppend(t, a, b[..|b| - 1]);
      assert (a + b)[..|a + b| - 1] == a + b[..|b| - 1];
    }
  }

  lemma TraceOne(t: Trace, e: SessionEvent)
    ensures TraceFrom(t, [e]) == TraceStep(t, e)
  {
    assert [e][..0] == [];
  }

  /** Events that neither start nor end a login. */
  predicate Calm(t: Trace, e: SessionEvent) {
    !e.LoggedIn? && !EndsLogin(e) && (NeedsUser(e) ==> t.In?)
  }

  lemma {:induction false} TraceStays(t: Trace, events: seq<SessionEvent>)
    requires forall i :: 0 <= i < |events| ==> Calm(t, events[i])
    ensures TraceFrom(t, events) == t
  {
    if events != [] {
      TraceStays(t, events[..|events| - 1]);
    }
  }

  lemma {:induction false} NotBrokenPrefix(t: Trace, events: seq<SessionEvent>, n: nat)
    requires n <= |events| && !TraceFrom(t, events).Broken?
    ensures !TraceFrom(t, events[..n]).Broken?
  {
    if n == |events| {
      assert events[..n] == events;
    } else {
      NotBrokenPrefix(t, events[..|events| - 1], n);
      assert events[..|events| - 1][..n] == events[..n];
    }
  }

  /** Somebody is in only if the log holds the login, with no end of it since. */
  lemma {:induction false} InSinceLogin(events: seq<SessionEvent>) returns (i: nat)
    requires TraceFrom(Nobody, events).In?
    ensures i < |events| && events[i] == LoggedIn(TraceFrom(Nobody, events).user)
    ensures forall k :: i < k < |events| ==> !EndsLogin(events[k]) && !events[k].LoggedIn?
  {
    var n := |events| - 1;
    if events[n].LoggedIn? {
      i := n;
    } else {
      i := InSinceLogin(events[..n]);
    }
  }

  /** In an unbroken log every event about messages, conversations or unread totals comes
      after a login and before the end of it. */
  lemma EventsOnlyWhileIn(events: seq<SessionEvent>, k: nat) returns (i: nat)
    requires !TraceFrom(Nobody, events).Broken?
    requires k < |events| && NeedsUser(events[k])
    ensures i < k && events[i].LoggedIn?
    ensures forall j :: i < j < k ==> !EndsLogin(events[j]) && !events[j].LoggedIn?
  {
    NotBrokenPrefix(Nobody, events, k + 1);
    assert events[..k + 1][..k] == events[..k];
    i := InSinceLogin(events[..k]);
  }

  /** In an unbroken log a logout names the user of the login before it. */
  lemma LogoutOfLastLogin(events: seq<SessionEvent>, k: nat) returns (i: nat)
    requires !TraceFrom(Nobody, events).Broken?
    requires k < |events| && events[k].LoggedOut?
    ensures i < k && events[i] == LoggedIn(events[k].userId)
    ensures forall j :: i < j < k ==> !EndsLogin(events[j]) && !events[j].LoggedIn?
  {
    NotBrokenPrefix(Nobody, events, k + 1);
    assert events[..k + 1][..k] == events[..k];
    i := InSinceLogin(events[..k]);
  }

  lemma {:induction false} NobodyAfterEnd(events: seq<SessionEvent>, i: nat)
    requires TraceFrom(Nobody, events) == Nobody && i < |events| && events[i].LoggedIn?
    ensures exists j :: i < j < |events| && EndsLogin(events[j])
  {
    var n := |events| - 1;
    if !EndsLogin(events[n]) {
      NobodyAfterEnd(events[..n], i);
      var j :| i < j < n && EndsLogin(events[..n][j]);
      assert EndsLogin(events[j]);
    }
  }

  /** ... and between two logins there is an end. */
  lemma EndBetweenLogins(events: seq<SessionEvent>, i: nat, k: nat)
    requires !TraceFrom(Nobody, events).Broken?
    requires i < k < |events| && events[i].LoggedIn? && events[k].LoggedIn?
    ensures exists j :: i < j < k && EndsLogin(events[j])
  {
    NotBrokenPrefix(Nobody, events, k + 1);
    assert events[..k + 1][..k] == events[..k];
    NobodyAfterEnd(events[..k], i);
    var j :| i < j < k && EndsLogin(events[..k][j]);
    assert EndsLogin(events[j]);
  }

  // ----- which tasks run, told from the events alone -----

  function TaskStep(name: string, t: Option<bool>, e: SessionEvent): Option<bool> {
    if t.None? then None
    else if e == TaskStarted(name) then (if t.value then None else Some(true))
    else if e == TaskStopped(name) then (if t.value then Some(false) else None)
    else t
  }

  function TaskFrom(name: string, t: Option<bool>, events: seq<SessionEvent>): Option<bool> {
    if events == [] then t else TaskStep(name, TaskFrom(name, t, events[..|events| - 1]), events[|events| - 1])
  }

  lemma {:induction false} TaskAppend(name: string, t: Option<bool>, a: seq<SessionEvent>, b: seq<SessionEvent>)
    ensures TaskFrom(name, t, a + b) == TaskFrom(name, TaskFrom(name, t, a), b)
  {
    if b == [] {
      assert a + b == a;
    } else {
      TaskAppend(name, t, a, b[..|b| - 1]);
      assert (a + b)[..|a + b| - 1] == a + b[..|b| - 1];
    }
  }

  lemma TaskOne(name: string, t: Option<bool>, e: SessionEvent)
    ensures TaskFrom(name, t, [e]) == TaskStep(name, t, e)
  {
    assert [e][..0] == [];
  }

  lemma {:induction false} TaskStays(name: string, t: Option<bool>, events: seq<SessionEvent>)
    requires forall i :: 0 <= i < |events| ==> events[i] != TaskStarted(name) && events[i] != TaskStopped(name)
    ensures TaskFrom(name, t, events) == t
  {
    if events != [] {
      TaskStays(name, t, events[..|events| - 1]);
    }
  }

  lemma {:induction false} TaskPrefix(name: string, events: seq<SessionEvent>, n: nat)
    requires n <= |events| && TaskFrom(name, Some(false), events).Some?
    ensures TaskFrom(name, Some(false), events[..n]).Some?
  {
    if n == |events| {
      assert events[..n] == events;
    } else {
      TaskPrefix(name, events[..|events| - 1], n);
      assert events[..|events| - 1][..n] == events[..n];
    }
  }

  /** Event `i` started the task, and up to `end` no event stopped it. */
  predicate RunsSince(name: string, events: seq<SessionEvent>, i: nat, end: nat) {
    i < end <= |events| && events[i] == TaskStarted(name)
    && forall k :: i < k < end ==> events[k] != TaskStopped(name)
  }

  lemma RunsSincePrefix(name: string, events: seq<SessionEvent>, n: nat, i: nat)
    requires n <= |events|
    ensures RunsSince(name, events[..n], i, n) <==> RunsSince(name, events, i, n)
  {
    if i < n {
      assert events[..n][i] == events[i];
      assert forall k :: i < k < n ==> events[k] == events[..n][k];
    }
  }

  /** A task runs exactly if it was started and not stopped since. */
  lemma {:induction false} LastTaskEvent(name: string, events: seq<SessionEvent>)
    requires TaskFrom(name, Some(false), events).Some?
    ensures TaskFrom(name, Some(false), events) == Some(true) <==>
      exists i :: RunsSince(name, events, i, |events|)
  {
    if events != [] {
      var n := |events| - 1;
      LastTaskEvent(name, events[..n]);
      if events[n] == TaskStarted(name) {
        assert RunsSince(name, events, n, |events|);
      } else if events[n] != TaskStopped(name) {
        if i: nat :| RunsSince(name, events, i, |events|) {
          RunsSincePrefix(name, events, n, i);
        }
        if i: nat :| RunsSince(name, events[..n], i, n) {
          RunsSincePrefix(name, events, n, i);
          assert RunsSince(name, events, i, |events|);
        }
      }
    }
  }

  /** In an unbroken log two starts of a task have a stop between them. */
  lemma StopBetweenStarts(name: string, events: seq<SessionEvent>, i: nat, j: nat)
    requires TaskFrom(name, Some(false), events).Some?
    requires i < j < |events| && events[i] == events[j] == TaskStarted(name)
    ensures exists k :: i < k < j && events[k] == TaskStopped(name)
  {
    TaskPrefix(name, events, j + 1);
    assert events[..j + 1][..j] == events[..j];
    LastTaskEvent(name, events[..j]);
    RunsSincePrefix(name, events, j, i);
    assert !RunsSince(name, events[..j], i, j);
  }

  /** ... and every stop has a start before it, with no other stop in between. */
  lemma StartBeforeStop(name: string, events: seq<SessionEvent>, j: nat)
    requires TaskFrom(name, Some(false), events).Some?
    requires j < |events| && events[j] == TaskStopped(name)
    ensures exists i :: RunsSince(name, events, i, j)
  {
    TaskPrefix(name, events, j + 1);
    assert events[..j + 1][..j] == events[..j];
    LastTaskEvent(name, events[..j]);
    var i: nat :| RunsSince(name, events[..j], i, j);
    RunsSincePrefix(name, events, j, i);
  }

  // ----- lists of events -----

  function StoppedEvents(names: seq<string>): (events: seq<SessionEvent>)
    ensures |events| == |names| && forall i :: 0 <= i < |names| ==> events[i] == TaskStopped(names[i])
  {
    seq(|names|, i requires 0 <= i < |names| => TaskStopped(names[i]))
  }

  function OpenedEvents(resources: seq<SessionResources.Resource>): (events: seq<SessionEvent>)
    ensures |events| == |resources|
    ensures forall i :: 0 <= i < |events| ==> events[i] == ResourceOpened(resources[i].kind, resources[i].name)
  {
    seq(|resources|, i requires 0 <= i < |resources| => ResourceOpened(resources[i].kind, resources[i].name))
  }

  function ClosedEvents(resources: seq<SessionResources.Resource>): (events: seq<SessionEvent>)
    ensures |events| == |resources|
    ensures forall i :: 0 <= i < |events| ==> events[i] == ResourceClosed(resources[i].kind, resources[i].name)
  {
    seq(|resources|, i requires 0 <= i < |resources| => ResourceClosed(resources[i].kind, resources[i].name))
  }

  /** New conversations, then changed ones, then the total; empty lists are not announced. */
  function ConversationEvents(batch: Dispatch.DispatchBatch): (events: seq<SessionEvent>)
    ensures forall e :: e in events ==> NeedsUser(e)
  {
    (if batch.created == [] then [] else [NewConversations(batch.created)])
    + (if batch.changed == [] then [] else [ConversationChanged(batch.changed)])
    + (if batch.totalUnread.None? then [] else [TotalUnreadCountChanged(batch.totalUnread.value)])
  }

  /** Stopping the running tasks leaves each of them stopped, once. */
  lemma {:induction false} AllStopped(name: string, names: seq<string>)
    requires NoDup(names)
    ensures TaskFrom(name, Some(name in names), StoppedEvents(names)) == Some(false)
  {
    if names != [] {
      var n := |names| - 1;
      var before := StoppedEvents(names[..n]);
      assert StoppedEvents(names) == before + [TaskStopped(names[n])];
      TaskAppend(name, Some(name in names), before, [TaskStopped(names[n])]);
      TaskOne(name, TaskFrom(name, Some(name in names), before), TaskStopped(names[n]));
      if name == names[n] {
        TaskStays(name, Some(true), before);
      } else {
        assert name in names <==> name in names[..n];
        AllStopped(name, names[..n]);
      }
    }
  }
}
