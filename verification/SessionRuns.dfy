/** What holds of a session after any calls with any answers. */
module SessionRuns {
  import opened Common
  import opened OrderedMap
  import SyncDiff
  import ScopeSync
  import opened Message
  import ConversationFold
  import opened Tasks
  import opened SessionResources
  import Dispatch
  import opened SessionEvents
  import opened SessionSteps

  function OpenHandles(s: Session): seq<nat> {
    if s.runtime.Some? then Handles(s.runtime.value.resources) else []
  }

  /** The log tells who is logged in. */
  ghost predicate LogTellsLogin(s: Session) {
    TraceFrom(Nobody, s.events) == if s.login.Some? then In(s.login.value) else Nobody
  }

  /** The log tells of each task whether it runs. */
  ghost predicate LogTellsTasks(s: Session) {
    forall name :: TaskFrom(name, Some(false), s.events) == Some(IsRunning(s.tasks, name))
  }

  /** Every handle a login brought is open or was closed, and nothing else is. */
  ghost predicate HandlesKept(s: Session) {
    multiset(s.acquired) == multiset(s.closed) + multiset(OpenHandles(s))
  }

  ghost predicate Inv(s: Session) {
    Lifecycle(s) && LogTellsLogin(s) && LogTellsTasks(s) && HandlesKept(s)
  }

  lemma NewSessionInv()
    ensures Inv(NEW_SESSION)
  {
  }

  // ----- logs -----

  ghost predicate QuietAbout(s: Session, more: seq<SessionEvent>) {
    forall i :: 0 <= i < |more| ==>
      !more[i].LoggedIn? && !EndsLogin(more[i]) && !AboutTask(more[i]) && (NeedsUser(more[i]) ==> s.login.Some?)
  }

  /** Telling about messages, conversations, totals and resources says nothing of logins and
      tasks. */
  lemma QuietKeeps(s: Session, after: Session, more: seq<SessionEvent>)
    requires LogTellsLogin(s) && LogTellsTasks(s) && HandlesKept(s)
    requires QuietAbout(s, more)
    requires after == Emit(s.(domains := after.domains, state := after.state), more)
    ensures LogTellsLogin(after) && LogTellsTasks(after) && HandlesKept(after)
  {
    var t := TraceFrom(Nobody, s.events);
    TraceAppend(Nobody, s.events, more);
    TraceStays(t, more);
    forall name ensures TaskFrom(name, Some(false), after.events) == Some(IsRunning(s.tasks, name)) {
      TaskAppend(name, Some(false), s.events, more);
      TaskStays(name, Some(IsRunning(s.tasks, name)), more);
    }
  }

  /** The log stays truthful about task `x` when task `name` is started or stopped. */
  lemma TaskEventKeeps(s: Session, name: string, running: bool, x: string)
    requires Ordered(s.tasks) && LogTellsTasks(s) && IsRunning(s.tasks, name) != running
    ensures var e := if running then TaskStarted(name) else TaskStopped(name);
      TaskFrom(x, Some(false), s.events + [e]) == Some(IsRunning(Put(s.tasks, name, running), x))
  {
    var e := if running then TaskStarted(name) else TaskStopped(name);
    PutGet(s.tasks, name, running, x);
    TaskAppend(x, Some(false), s.events, [e]);
    TaskOne(x, Some(IsRunning(s.tasks, x)), e);
  }

  lemma StartedLog(s: Session, name: string)
    requires Ordered(s.tasks) && LogTellsTasks(s)
    ensures Ordered(Started(s, name).tasks) && LogTellsTasks(Started(s, name))
    ensures TraceFrom(Nobody, Started(s, name).events) == TraceFrom(Nobody, s.events)
  {
    PutOrdered(s.tasks, name, true);
    TraceAppend(Nobody, s.events, [TaskStarted(name)]);
    TraceOne(TraceFrom(Nobody, s.events), TaskStarted(name));
    forall x ensures TaskFrom(x, Some(false), Started(s, name).events) == Some(IsRunning(Put(s.tasks, name, true), x)) {
      if IsRunning(s.tasks, name) {
        PutGet(s.tasks, name, true, x);
      } else {
        TaskEventKeeps(s, name, true, x);
      }
    }
  }

  lemma StoppedLog(s: Session, name: string)
    requires Ordered(s.tasks) && LogTellsTasks(s) && IsRunning(s.tasks, name)
    ensures var after := Emit(s.(tasks := Put(s.tasks, name, false)), [TaskStopped(name)]);
      && Ordered(after.tasks) && LogTellsTasks(after)
      && TraceFrom(Nobody, after.events) == TraceFrom(Nobody, s.events)
  {
    PutOrdered(s.tasks, name, false);
    TraceAppend(Nobody, s.events, [TaskStopped(name)]);
    TraceOne(TraceFrom(Nobody, s.events), TaskStopped(name));
    forall x
      ensures TaskFrom(x, Some(false), s.events + [TaskStopped(name)]) == Some(IsRunning(Put(s.tasks, name, false), x))
    {
      TaskEventKeeps(s, name, false, x);
    }
  }

  // ----- lifecycle -----

  lemma InitKeeps(s: Session, answer: Result<Unit>)
    requires Inv(s)
    ensures Inv(InitStep(s, answer).0)
  {
    var after := InitStep(s, answer).0;
    if after != s {
      QuietKeeps(s, after, [SessionEvent.Initialized]);
    }
  }

  lemma EmitTrace(s: Session, more: seq<SessionEvent>)
    requires forall i :: 0 <= i < |more| ==> Calm(Nobody, more[i])
    requires TraceFrom(Nobody, s.events) == Nobody
    ensures TraceFrom(Nobody, Emit(s, more).events) == Nobody
  {
    TraceAppend(Nobody, s.events, more);
    TraceStays(Nobody, more);
  }

  lemma EmitTasks(s: Session, more: seq<SessionEvent>)
    requires forall i :: 0 <= i < |more| ==> !AboutTask(more[i])
    requires LogTellsTasks(s)
    ensures LogTellsTasks(Emit(s, more))
  {
    forall name ensures TaskFrom(name, Some(false), Emit(s, more).events) == Some(IsRunning(s.tasks, name)) {
      TaskAppend(name, Some(false), s.events, more);
      TaskStays(name, Some(IsRunning(s.tasks, name)), more);
    }
  }

  /** Telling of the opened resources and then of the login. */
  lemma LoginTold(s: Session, resources: seq<Resource>, userId: string)
    requires LogTellsTasks(s) && TraceFrom(Nobody, s.events) == Nobody
    ensures var after := Emit(Emit(s, OpenedEvents(resources)), [SessionEvent.LoggedIn(userId)]);
      LogTellsTasks(after) && TraceFrom(Nobody, after.events) == In(userId)
  {
    var told := Emit(s, OpenedEvents(resources));
    EmitTasks(s, OpenedEvents(resources));
    EmitTrace(s, OpenedEvents(resources));
    EmitTasks(told, [SessionEvent.LoggedIn(userId)]);
    TraceAppend(Nobody, told.events, [SessionEvent.LoggedIn(userId)]);
    TraceOne(Nobody, SessionEvent.LoggedIn(userId));
  }

  lemma EnteredLog(s: Session, userId: string, runtime: Runtime)
    requires Ordered(s.tasks) && LogTellsTasks(s) && TraceFrom(Nobody, s.events) == Nobody
    ensures var after := Entered(s, userId, runtime);
      Ordered(after.tasks) && LogTellsTasks(after) && TraceFrom(Nobody, after.events) == In(userId)
  {
    var entered := s.(state := SessionState.LoggedIn, login := Some(userId), runtime := Some(runtime),
                      domains := NO_DOMAINS, acquired := s.acquired + Handles(runtime.resources));
    StartedLog(entered, TRANSPORT_TASK);
    StartedLog(Started(entered, TRANSPORT_TASK), SYNC_TASK);
    LoginTold(Started(Started(entered, TRANSPORT_TASK), SYNC_TASK), runtime.resources, userId);
  }

  lemma LoginKeeps(config: SessionConfig, s: Session, c: LoginCredentials, answers: LoginAnswers)
    requires Inv(s)
    ensures Inv(LoginStep(config, s, c, answers).0)
  {
    var admitted := AdmittedRuntime(config, s, c, answers);
    if admitted.Ok? {
      EnteredLog(s, c.userId, admitted.value);
      EnteredHandles(s, c.userId, admitted.value);
    }
  }

  lemma EnteredHandles(s: Session, userId: string, runtime: Runtime)
    requires HandlesKept(s) && s.runtime.None?
    ensures HandlesKept(Entered(s, userId, runtime))
  {
    var after := Entered(s, userId, runtime);
    assert after.acquired == s.acquired + Handles(runtime.resources);
    assert OpenHandles(after) == Handles(runtime.resources);
    assert after.closed == s.closed;
  }

  /** An attempt to close moves handles from open to closed, whether it fails or not. */
  lemma CloseKeepsHandles(s: Session, closes: Closes)
    requires HandlesKept(s)
    ensures HandlesKept(CloseRuntime(s, closes).0)
  {
    if s.runtime.Some? {
      PassConserves(CloseRecord(s.runtime.value.resources, s.closed), closes);
    }
  }

  /** Stopping all tasks is told of each running one. */
  lemma AllStoppedLog(s: Session, state: SessionState)
    requires Ordered(s.tasks) && LogTellsTasks(s)
    ensures LogTellsTasks(Emit(s.(state := state, login := None, domains := NO_DOMAINS, tasks := []),
                               StoppedEvents(RunningNames(s.tasks))))
  {
    var names := RunningNames(s.tasks);
    RunningNamesExact(s.tasks);
    forall name
      ensures TaskFrom(name, Some(false), s.events + StoppedEvents(names)) == Some(IsRunning([], name))
    {
      TaskAppend(name, Some(false), s.events, StoppedEvents(names));
      AllStopped(name, names);
    }
  }

  lemma LeftTasks(s: Session, state: SessionState, closed: seq<Resource>, last: SessionEvent)
    requires Ordered(s.tasks) && LogTellsTasks(s) && !AboutTask(last)
    ensures LogTellsTasks(Left(s, state, closed, last))
  {
    AllStoppedLog(s, state);
    var stopped := Emit(s.(state := state, login := None, domains := NO_DOMAINS, tasks := []),
                        StoppedEvents(RunningNames(s.tasks)));
    EmitTasks(stopped, ClosedEvents(closed));
    EmitTasks(Emit(stopped, ClosedEvents(closed)), [last]);
  }

  lemma LeftLogin(s: Session, state: SessionState, closed: seq<Resource>, last: SessionEvent)
    requires LogTellsLogin(s)
    requires last == SessionEvent.Uninitialized || (s.login.Some? && last == SessionEvent.LoggedOut(s.login.value))
    ensures LogTellsLogin(Left(s, state, closed, last))
  {
    var t, stopped := TraceFrom(Nobody, s.events), StoppedEvents(RunningNames(s.tasks));
    TraceAppend(Nobody, s.events, stopped);
    TraceStays(t, stopped);
    TraceAppend(Nobody, s.events + stopped, ClosedEvents(closed));
    TraceStays(t, ClosedEvents(closed));
    TraceAppend(Nobody, s.events + stopped + ClosedEvents(closed), [last]);
    TraceOne(t, last);
  }

  lemma LeftKeeps(s: Session, state: SessionState, closed: seq<Resource>, last: SessionEvent)
    requires Ordered(s.tasks) && LogTellsTasks(s) && LogTellsLogin(s) && HandlesKept(s)
    requires s.runtime.None? && !state.LoggedIn?
    requires last == SessionEvent.Uninitialized || (s.login.Some? && last == SessionEvent.LoggedOut(s.login.value))
    ensures Inv(Left(s, state, closed, last))
  {
    LeftTasks(s, state, closed, last);
    LeftLogin(s, state, closed, last);
    assert OpenHandles(Left(s, state, closed, last)) == OpenHandles(s);
  }

  lemma CloseKeepsLog(s: Session, closes: Closes)
    requires LogTellsTasks(s) && LogTellsLogin(s)
    ensures var after := CloseRuntime(s, closes).0;
      LogTellsTasks(after) && LogTellsLogin(after)
  {
    assert CloseRuntime(s, closes).0.events == s.events;
    assert CloseRuntime(s, closes).0.tasks == s.tasks;
  }

  lemma EndKeeps(s: Session, answer: Result<Unit>, closes: Closes, state: SessionState, last: SessionEvent)
    requires Inv(s) && !state.LoggedIn?
    requires last == SessionEvent.Uninitialized || (s.login.Some? && last == SessionEvent.LoggedOut(s.login.value))
    ensures Inv(EndStep(s, answer, closes, state, last).0)
  {
    if answer.Ok? {
      var (attempted, closed) := CloseRuntime(s, closes);
      CloseKeepsHandles(s, closes);
      CloseKeepsLog(s, closes);
      if closed.Ok? {
        LeftKeeps(attempted, state, closed.value, last);
      }
    }
  }

  // ----- tasks and announcements -----

  lemma StartTaskKeeps(s: Session, name: string)
    requires Inv(s)
    ensures Inv(StartTaskStep(s, name).0)
  {
    if name != "" {
      StartedLog(s, name);
    }
  }

  lemma StopTaskKeeps(s: Session, name: string)
    requires Inv(s)
    ensures Inv(StopTaskStep(s, name).0)
  {
    if name != "" && IsRunning(s.tasks, name) {
      StoppedLog(s, name);
    }
  }

  lemma DispatchKeeps(s: Session, batch: seq<SessionEvent>)
    requires Inv(s) && forall i :: 0 <= i < |batch| ==> NeedsUser(batch[i])
    ensures Inv(DispatchStep(s, batch).0)
  {
    if s.state.LoggedIn? {
      QuietKeeps(s, Emit(s, batch), batch);
    }
  }

  // ----- messages -----

  lemma StoredKeeps(s: Session, messages: map<(string, string), ChatMessage>)
    requires Inv(s) && s.state.LoggedIn? && SyncDiff.Keyed(messages, MessageKey)
    ensures Inv(WithMessages(s, messages))
  {
    QuietKeeps(s, WithMessages(s, messages), []);
  }

  lemma AnnouncementQuiet(s: Session, announcement: Dispatch.DispatchBatch)
    requires s.login.Some?
    ensures QuietAbout(s, ConversationEvents(announcement))
  {
    var more := ConversationEvents(announcement);
    forall i | 0 <= i < |more| ensures NeedsUser(more[i]) {
      assert more[i] in more;
    }
  }

  lemma ToldKeeps(s: Session, domains: Domains, more: seq<SessionEvent>)
    requires Inv(s) && s.state.LoggedIn? && DomainsKeyed(domains) && QuietAbout(s, more)
    ensures Inv(Emit(s.(domains := domains), more))
  {
    QuietKeeps(s, Emit(s.(domains := domains), more), more);
  }

  lemma FoldedKeeps(s: Session, owner: string, batch: seq<ChatMessage>, first: seq<SessionEvent>)
    requires Inv(s) && s.state.LoggedIn?
    requires ConversationFold.AllRoutable(owner, batch) && owner != ""
    requires forall i :: 0 <= i < |first| ==> NeedsUser(first[i])
    ensures Inv(Folded(s, owner, batch, first))
  {
    var conversations := s.domains.conversations;
    var domains := s.domains.(conversations := ConversationFold.FoldAll(conversations, owner, batch));
    var announcement := Dispatch.Announcement(conversations, owner, batch);
    Dispatch.FoldAllKeyed(conversations, owner, batch);
    ToldKeeps(s, domains, first);
    var told := Emit(s.(domains := domains), first);
    AnnouncementQuiet(told, announcement);
    ToldKeeps(told, domains, ConversationEvents(announcement));
  }

  lemma SendKeeps(s: Session, m: ChatMessage, reply: Result<SendMessageAck>)
    requires Inv(s)
    ensures Inv(SendStep(s, m, reply).0)
  {
    if s.state.LoggedIn? && m.sendId == s.login.value && ValidMessage(m) {
      var messages := s.domains.messages[MessageKey(m) := SendOutcome(m, reply).0];
      StoredKeeps(s, messages);
      if SendOutcome(m, reply).1.Ok? {
        SentRoutable(s.login.value, m, reply);
        FoldedKeeps(WithMessages(s, messages), s.login.value, [SendOutcome(m, reply).1.value], []);
      }
    }
  }

  lemma PullKeeps(s: Session, conversationId: string, reply: Result<seq<ChatMessage>>)
    requires Inv(s)
    ensures Inv(PullStep(s, conversationId, reply).0)
  {
    if PullStep(s, conversationId, reply).0 != s {
      var owner, batch := s.login.value, reply.value;
      Dispatch.ValidRoutable(owner, batch);
      var messages := ScopeSync.SyncedMap(s.domains.messages, MessageKey, KeysUnder(conversationId), batch,
                                          SyncDiff.OVERLAY_OPTIONS);
      ScopeSync.SyncedMapKeyed(s.domains.messages, MessageKey, KeysUnder(conversationId), batch, SyncDiff.OVERLAY_OPTIONS);
      StoredKeeps(s, messages);
      FoldedKeeps(WithMessages(s, messages), owner, batch, [NewMessages(batch)]);
    }
  }

  lemma {:induction false} StoreAllKeyed(messages: map<(string, string), ChatMessage>, batch: seq<ChatMessage>)
    requires SyncDiff.Keyed(messages, MessageKey)
    ensures SyncDiff.Keyed(StoreAll(messages, batch), MessageKey)
  {
    if batch != [] {
      StoreAllKeyed(messages, batch[..|batch| - 1]);
    }
  }

  lemma ReceiveKeeps(s: Session, pushed: Result<seq<ChatMessage>>)
    requires Inv(s)
    ensures Inv(ReceiveStep(s, pushed).0)
  {
    if s.state.LoggedIn? && pushed.Ok? && pushed.value != [] {
      var owner, batch := s.login.value, pushed.value;
      var n := AcceptedCount(owner, batch);
      StoreAllKeyed(s.domains.messages, batch[..n]);
      StoredKeeps(s, StoreAll(s.domains.messages, batch[..n]));
      if n == |batch| {
        ReceivedRoutable(owner, batch);
        FoldedKeeps(WithMessages(s, StoreAll(s.domains.messages, batch[..n])), owner, ReceivedAll(batch),
                    [NewMessages(ReceivedAll(batch))]);
      }
    }
  }

  // ----- any call, any run -----

  predicate AboutLifecycle(call: Call) {
    call.Init? || call.Login? || call.Logout? || call.Uninit? || call.StartTask? || call.StopTask?
  }

  lemma LifecycleCallKeeps(config: SessionConfig, s: Session, call: Call)
    requires Inv(s) && AboutLifecycle(call)
    ensures Inv(Next(config, s, call))
  {
    match call {
      case Init(answer) => InitKeeps(s, answer);
      case Login(c, answers) => LoginKeeps(config, s, c, answers);
      case Logout(answer, closes) =>
        if s.login.Some? {
          EndKeeps(s, answer, closes, SessionState.LoggedOut, SessionEvent.LoggedOut(s.login.value));
        }
      case Uninit(answer, closes) => EndKeeps(s, answer, closes, SessionState.Uninitialized, SessionEvent.Uninitialized);
      case StartTask(name) => StartTaskKeeps(s, name);
      case StopTask(name) => StopTaskKeeps(s, name);
      case _ =>
    }
  }

  lemma AnnouncedKeeps(s: Session, batch: Dispatch.DispatchBatch)
    requires Inv(s)
    ensures Inv(DispatchStep(s, ConversationEvents(batch)).0)
  {
    var more := ConversationEvents(batch);
    forall i | 0 <= i < |more| ensures NeedsUser(more[i]) {
      assert more[i] in more;
    }
    DispatchKeeps(s, more);
  }

  lemma EditKeeps(s: Session, domains: Domains)
    requires Inv(s)
    ensures Inv(if s.state.LoggedIn? && DomainsKeyed(domains) then s.(domains := domains) else s)
  {
    if s.state.LoggedIn? && DomainsKeyed(domains) {
      QuietKeeps(s, s.(domains := domains), []);
    }
  }

  lemma MessageCallKeeps(config: SessionConfig, s: Session, call: Call)
    requires Inv(s) && !AboutLifecycle(call)
    ensures Inv(Next(config, s, call))
  {
    match call {
      case DispatchNewMessages(messages) => DispatchKeeps(s, if messages == [] then [] else [NewMessages(messages)]);
      case DispatchNewConversations(created) => AnnouncedKeeps(s, Dispatch.DispatchBatch(created, [], None));
      case DispatchConversationChanged(changed) => AnnouncedKeeps(s, Dispatch.DispatchBatch([], changed, None));
      case DispatchTotalUnread(total) => DispatchKeeps(s, [TotalUnreadCountChanged(total)]);
      case Send(m, reply) => SendKeeps(s, m, reply);
      case Pull(id, reply) => PullKeeps(s, id, reply);
      case Receive(pushed) => ReceiveKeeps(s, pushed);
      case Edit(domains) => EditKeeps(s, domains);
      case _ =>
    }
  }

  lemma NextKeeps(config: SessionConfig, s: Session, call: Call)
    requires Inv(s)
    ensures Inv(Next(config, s, call))
  {
    if AboutLifecycle(call) {
      LifecycleCallKeeps(config, s, call);
    } else {
      MessageCallKeeps(config, s, call);
    }
  }

  /** The session after some calls.  Whatever they are and whatever is answered to them, it
      keeps its invariant. */
  ghost function Run(config: SessionConfig, calls: seq<Call>): (s: Session)
    ensures Inv(s)
  {
    if calls == [] then
      NewSessionInv();
      NEW_SESSION
    else
      var before := Run(config, calls[..|calls| - 1]);
      NextKeeps(config, before, calls[|calls| - 1]);
      Next(config, before, calls[|calls| - 1])
  }

  /** If no two logins bring the same handle, no handle is ever closed twice or closed while
      it is still open, and whenever nobody is logged in all handles have been closed. */
  lemma HandlesClosedOnce(config: SessionConfig, calls: seq<Call>)
    requires NoDup(Run(config, calls).acquired)
    ensures var s := Run(config, calls);
      && NoDup(s.closed)
      && (forall h :: h in s.closed ==> h !in OpenHandles(s))
      && (!s.state.LoggedIn? ==> multiset(s.closed) == multiset(s.acquired))
  {
    var s := Run(config, calls);
    assert multiset(s.closed + OpenHandles(s)) == multiset(s.acquired);
    NoDupFromMultiset(s.acquired, s.closed + OpenHandles(s));
    NoDupParts(s.closed, OpenHandles(s));
  }

  /** In the log of any run, message, conversation and unread events come after a login and
      before the end of it, and a task's starts and stops take turns. */
  lemma LogOfAnyRun(config: SessionConfig, calls: seq<Call>, k: nat) returns (i: nat)
    requires k < |Run(config, calls).events| && NeedsUser(Run(config, calls).events[k])
    ensures var events := Run(config, calls).events;
      && i < k && events[i].LoggedIn?
      && forall j :: i < j < k ==> !EndsLogin(events[j]) && !events[j].LoggedIn?
  {
    i := EventsOnlyWhileIn(Run(config, calls).events, k);
  }

  lemma TasksTakeTurns(config: SessionConfig, calls: seq<Call>, name: string, i: nat, j: nat)
    requires i < j < |Run(config, calls).events|
    requires Run(config, calls).events[i] == Run(config, calls).events[j] == TaskStarted(name)
    ensures exists k :: i < k < j && Run(config, calls).events[k] == TaskStopped(name)
  {
    StopBetweenStarts(name, Run(config, calls).events, i, j);
  }

  /** A task runs exactly if the log holds a start of it with no stop since. */
  lemma RunningIffStarted(config: SessionConfig, calls: seq<Call>, name: string)
    ensures var s := Run(config, calls);
      IsRunning(s.tasks, name) <==> exists i :: RunsSince(name, s.events, i, |s.events|)
  {
    LastTaskEvent(name, Run(config, calls).events);
  }
}
