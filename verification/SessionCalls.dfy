/** What the lifecycle calls answer and leave, written out, and when a login succeeds over a
    whole run. */
module SessionCalls {
  import opened Common
  import OrderedMap
  import Message
  import ConversationFold
  import Dispatch
  import opened Tasks
  import opened SessionResources
  import opened SessionEvents
  import opened SessionSteps
  import opened SessionRuns

  // ----- one call -----

  /** Only a new or uninitialised session asks the adapter; then its answer decides. */
  lemma InitOutcome(s: Session, answer: Result<Unit>)
    ensures var (after, r) := InitStep(s, answer);
      if s.state.Created? || s.state.Uninitialized? then
        && r == answer
        && after == if answer.Err? then s
                    else s.(state := SessionState.Initialized, events := s.events + [SessionEvent.Initialized])
      else r == Ok(Unit) && after == s
  {
    assert answer.Ok? ==> answer.value == Unit;
  }

  /** The transport is the one this configuration asks for, for this user. */
  predicate RightTransport(t: TransportConfig, config: SessionConfig, c: LoginCredentials, operationId: string) {
    && t.wsAddr == config.wsAddr && t.userId == c.userId && t.token == c.token
    && t.platformId == config.platformId && t.operationId == operationId
    && t.sdkType == "js" && t.sdkVersion == "rust-phase1-poc"
    && !t.isBackground && t.compression && t.sendResponse
  }

  /** The storage is the user's: a browser database, none, or the file that was found. */
  predicate RightStorage(storage: StorageTarget, config: SessionConfig, c: LoginCredentials, dbFile: Result<string>) {
    if config.isWeb then storage == IndexedDb("OpenIM_v3_" + c.userId)
    else if config.dataDir.None? then storage == Unconfigured
    else dbFile.Ok? && storage == Sqlite(dbFile.value)
  }

  /** Complete credentials, and an adapter that answers with just what it was asked for. */
  predicate RightLogin(config: SessionConfig, c: LoginCredentials, answers: LoginAnswers) {
    && c.userId != "" && c.token != "" && answers.adapter.Ok?
    && answers.adapter.value.userId == c.userId
    && RightTransport(answers.adapter.value.transport, config, c, answers.operationId)
    && RightStorage(answers.adapter.value.storage, config, c, answers.dbFile)
  }

  /** A login succeeds exactly if the session is initialised or logged out and the login is
      right; otherwise the first thing that is wrong decides the error, and nothing changes. */
  lemma LoginSucceedsIff(config: SessionConfig, s: Session, c: LoginCredentials, answers: LoginAnswers)
    ensures var (after, r) := LoginStep(config, s, c, answers);
      && (r.Ok? <==> (s.state.Initialized? || s.state.LoggedOut?) && RightLogin(config, c, answers))
      && (r.Err? ==> after == s)
    ensures var r := LoginStep(config, s, c, answers).1;
      if c.userId == "" || c.token == "" || s.state.Created? || s.state.LoggedIn? || s.state.Uninitialized? then r == Err(Args)
      else if !config.isWeb && config.dataDir.Some? && answers.dbFile.Err? then r == Err(answers.dbFile.error)
      else if answers.adapter.Err? then r == Err(answers.adapter.error)
      else r == if RightLogin(config, c, answers) then Ok(Unit) else Err(SdkInternal)
  {
  }

  /** `name` is running after a login: as one of the two tasks of every login, or as before. */
  predicate RunsAfterLogin(s: Session, name: string) {
    name == "transport" || name == "sync" || IsRunning(s.tasks, name)
  }

  function StartOf(s: Session, name: string): seq<SessionEvent> {
    if IsRunning(s.tasks, name) then [] else [TaskStarted(name)]
  }

  lemma StartedTasks(s: Session, name: string, x: string)
    requires OrderedMap.Ordered(s.tasks)
    ensures OrderedMap.Ordered(Started(s, name).tasks)
    ensures IsRunning(Started(s, name).tasks, x) <==> x == name || IsRunning(s.tasks, x)
  {
    OrderedMap.PutOrdered(s.tasks, name, true);
    OrderedMap.PutGet(s.tasks, name, true, x);
  }

  /** What a login that succeeds leaves: the user, the resources the adapter brought, empty
      domain services, both tasks running, and a log of the starts, the resources and the
      login. */
  lemma LoginEnters(config: SessionConfig, s: Session, c: LoginCredentials, answers: LoginAnswers)
    requires Lifecycle(s) && LoginStep(config, s, c, answers).1.Ok?
    ensures answers.adapter.Ok?
    ensures var after, runtime := LoginStep(config, s, c, answers).0, answers.adapter.value;
      && after.state == SessionState.LoggedIn && after.login == Some(c.userId) && after.runtime == Some(runtime)
      && after.domains == Domains(map[], map[], map[], map[], map[], map[])
      && after.acquired == s.acquired + Handles(runtime.resources) && after.closed == s.closed
      && (forall name :: IsRunning(after.tasks, name) <==> RunsAfterLogin(s, name))
      && after.events == s.events + (StartOf(s, "transport") + StartOf(s, "sync") + OpenedEvents(runtime.resources)
                                     + [SessionEvent.LoggedIn(c.userId)])
  {
    var runtime := answers.adapter.value;
    var entered := s.(state := SessionState.LoggedIn, login := Some(c.userId), runtime := Some(runtime),
                      domains := NO_DOMAINS, acquired := s.acquired + Handles(runtime.resources));
    var first := Started(entered, TRANSPORT_TASK);
    forall x ensures IsRunning(Started(first, SYNC_TASK).tasks, x) <==> RunsAfterLogin(s, x) {
      StartedTasks(entered, TRANSPORT_TASK, x);
      StartedTasks(first, SYNC_TASK, x);
    }
    StartedTasks(entered, TRANSPORT_TASK, SYNC_TASK);
    assert first.events == s.events + StartOf(s, "transport");
    assert Started(first, SYNC_TASK).events == first.events + StartOf(s, "sync");
  }

  /** Starting a task makes it run and is told of if it did not run before; stopping one is the
      reverse.  Neither touches another task, and a task has to have a name. */
  lemma TaskOutcome(s: Session, name: string)
    requires OrderedMap.Ordered(s.tasks)
    ensures var (after, r) := StartTaskStep(s, name);
      && r == (if name == "" then Err(Args) else Ok(Unit))
      && (forall x :: IsRunning(after.tasks, x) <==> IsRunning(s.tasks, x) || (name != "" && x == name))
      && after == s.(tasks := after.tasks,
                     events := s.events + if name == "" || IsRunning(s.tasks, name) then [] else [TaskStarted(name)])
    ensures var (after, r) := StopTaskStep(s, name);
      && r == (if name == "" then Err(Args) else Ok(Unit))
      && (forall x :: IsRunning(after.tasks, x) <==> IsRunning(s.tasks, x) && (name == "" || x != name))
      && after == s.(tasks := after.tasks,
                     events := s.events + if name != "" && IsRunning(s.tasks, name) then [TaskStopped(name)] else [])
  {
    assert s.events + [] == s.events;
    forall x
      ensures IsRunning(OrderedMap.Put(s.tasks, name, true), x) <==> x == name || IsRunning(s.tasks, x)
      ensures IsRunning(OrderedMap.Put(s.tasks, name, false), x) <==> x != name && IsRunning(s.tasks, x)
    {
      OrderedMap.PutGet(s.tasks, name, true, x);
      OrderedMap.PutGet(s.tasks, name, false, x);
    }
  }

  // ----- logout and uninit -----

  function Resources(s: Session): seq<Resource> {
    if s.runtime.Some? then s.runtime.value.resources else []
  }

  /** Everything was closed, the running tasks were stopped, and the session is as good as new
      but for its history. */
  ghost predicate Ended(s: Session, after: Session, state: SessionState, last: SessionEvent) {
    && after.state == state && after.login.None? && after.runtime.None? && after.tasks == []
    && after.domains == Domains(map[], map[], map[], map[], map[], map[])
    && after.acquired == s.acquired && after.closed == s.closed + Handles(Reverse(Resources(s)))
    && exists names ::
         && ListsRunning(names, s.tasks)
         && after.events == s.events + (StoppedEvents(names) + ClosedEvents(Reverse(Resources(s))) + [last])
  }

  /** Something refused to close: what did is closed, what did not is still there, each in its
      order, and nothing else happened. */
  ghost predicate StillOpen(s: Session, after: Session, closes: Closes) {
    && s.runtime.Some? && s.closed <= after.closed
    && after == s.(runtime := Some(s.runtime.value.(resources := Resources(after))), closed := after.closed)
    && SplitBy(Resources(s), closes, Resources(after), after.closed[|s.closed|..])
  }

  /** `open` are the resources that refuse to close, `handles` those of the others, newest
      first. */
  ghost predicate SplitBy(resources: seq<Resource>, closes: Closes, open: seq<Resource>, handles: seq<nat>) {
    && (exists stay: seq<nat> :: PicksInOrder(open, resources, stay) && AllThat(stay, resources, closes, false))
    && (exists go: seq<nat> :: PicksInOrder(Reverse(handles), Handles(resources), go) && AllThat(go, resources, closes, true))
  }

  /** The places of those that close, or of those that refuse. */
  ghost predicate AllThat(places: seq<nat>, resources: seq<Resource>, closes: Closes, close: bool) {
    forall i :: i in places <==> 0 <= i < |resources| && closes(resources[i].handle) == close
  }

  lemma PassSplits(resources: seq<Resource>, closes: Closes)
    ensures SplitBy(resources, closes, Remaining(resources, closes), Handles(ClosedBy(resources, closes)))
    ensures Remaining(resources, closes) == [] <==> forall i :: 0 <= i < |resources| ==> closes(resources[i].handle)
  {
    var stay := FilterPlaces(resources, Refusing(closes));
    assert AllThat(stay, resources, closes, false);
    ClosedPlaces(resources, closes);
    if Remaining(resources, closes) != [] {
      assert stay[0] in stay;
    } else {
      assert stay == [];
    }
  }

  lemma ClosedPlaces(resources: seq<Resource>, closes: Closes)
    ensures exists go: seq<nat> ::
      && PicksInOrder(Reverse(Handles(ClosedBy(resources, closes))), Handles(resources), go)
      && AllThat(go, resources, closes, true)
  {
    var go := FilterPlaces(resources, Closing(closes));
    var closed := Filter(resources, Closing(closes));
    FilterReverse(resources, Closing(closes));
    assert Reverse(Handles(Reverse(closed))) == Handles(closed);
    assert PicksInOrder(Handles(closed), Handles(resources), go);
    assert AllThat(go, resources, closes, true);
  }

  /** What an attempt to end a session comes to once the adapter agreed. */
  lemma EndOutcome(s: Session, closes: Closes, state: SessionState, last: SessionEvent)
    requires OrderedMap.Ordered(s.tasks)
    ensures var (after, r) := EndStep(s, Ok(Unit), closes, state, last);
      if forall i :: 0 <= i < |Resources(s)| ==> closes(Resources(s)[i].handle)
      then r == Ok(Unit) && Ended(s, after, state, last)
      else r == Err(External) && StillOpen(s, after, closes)
  {
    var (after, r) := EndStep(s, Ok(Unit), closes, state, last);
    PassSplits(Resources(s), closes);
    if Remaining(Resources(s), closes) == [] {
      AllClosedNow(s, closes, state, last);
    } else {
      var shut := Handles(ClosedBy(Resources(s), closes));
      assert after.closed[|s.closed|..] == shut;
    }
  }

  lemma LeftIsEnded(s: Session, attempted: Session, state: SessionState, last: SessionEvent)
    requires OrderedMap.Ordered(s.tasks)
    requires attempted == s.(runtime := None, closed := s.closed + Handles(Reverse(Resources(s))))
    ensures Ended(s, Left(attempted, state, Reverse(Resources(s)), last), state, last)
  {
    RunningNamesList(s.tasks);
    var names := RunningNames(s.tasks);
    var stopped, closed := StoppedEvents(names), ClosedEvents(Reverse(Resources(s)));
    assert ((s.events + stopped) + closed) + [last] == s.events + (stopped + closed + [last]);
  }

  lemma AllClosedNow(s: Session, closes: Closes, state: SessionState, last: SessionEvent)
    requires OrderedMap.Ordered(s.tasks) && Remaining(Resources(s), closes) == []
    ensures var (after, r) := EndStep(s, Ok(Unit), closes, state, last);
      r == Ok(Unit) && Ended(s, after, state, last)
  {
    var (attempted, closed) := CloseRuntime(s, closes);
    AllClosed(Resources(s), closes);
    if s.runtime.None? {
      assert Reverse(Resources(s)) == [] && s.closed + Handles([]) == s.closed;
    }
    LeftIsEnded(s, attempted, state, last);
  }

  /** A logout with nobody logged in, or that the adapter refuses, does nothing.  Otherwise it
      succeeds exactly if every resource closes. */
  lemma LogoutOutcome(s: Session, answer: Result<Unit>, closes: Closes)
    requires Lifecycle(s)
    ensures var (after, r) := LogoutStep(s, answer, closes);
      if s.login.None? then r == Ok(Unit) && after == s
      else if answer.Err? then r == answer && after == s
      else if forall i :: 0 <= i < |Resources(s)| ==> closes(Resources(s)[i].handle)
      then r == Ok(Unit) && Ended(s, after, SessionState.LoggedOut, SessionEvent.LoggedOut(s.login.value))
      else r == Err(External) && StillOpen(s, after, closes)
  {
    if s.login.Some? && answer.Ok? {
      EndOutcome(s, closes, SessionState.LoggedOut, SessionEvent.LoggedOut(s.login.value));
    }
  }

  /** An uninit is the same, but needs nobody to be logged in. */
  lemma UninitOutcome(s: Session, answer: Result<Unit>, closes: Closes)
    requires Lifecycle(s)
    ensures var (after, r) := UninitStep(s, answer, closes);
      if answer.Err? then r == answer && after == s
      else if forall i :: 0 <= i < |Resources(s)| ==> closes(Resources(s)[i].handle)
      then r == Ok(Unit) && Ended(s, after, SessionState.Uninitialized, SessionEvent.Uninitialized)
      else r == Err(External) && StillOpen(s, after, closes)
  {
    if answer.Ok? {
      EndOutcome(s, closes, SessionState.Uninitialized, SessionEvent.Uninitialized);
    }
  }

  // ----- the state over runs -----

  predicate AboutState(e: SessionEvent) {
    e.Initialized? || e.LoggedIn? || e.LoggedOut? || e.Uninitialized?
  }

  /** The state such an event tells of. */
  function StateOf(e: SessionEvent): SessionState
    requires AboutState(e)
  {
    match e
    case Initialized => SessionState.Initialized
    case LoggedIn(_) => SessionState.LoggedIn
    case LoggedOut(_) => SessionState.LoggedOut
    case Uninitialized => SessionState.Uninitialized
  }

  /** The state the last such event of a log tells of. */
  function LastState(events: seq<SessionEvent>): SessionState {
    if events == [] then SessionState.Created
    else if AboutState(events[|events| - 1]) then StateOf(events[|events| - 1])
    else LastState(events[..|events| - 1])
  }

  lemma {:induction false} LastStateStays(events: seq<SessionEvent>, more: seq<SessionEvent>)
    requires forall e :: e in more ==> !AboutState(e)
    ensures LastState(events + more) == LastState(events)
  {
    if more == [] {
      assert events + more == events;
    } else {
      var n := |more| - 1;
      assert more[n] in more;
      LastStateStays(events, more[..n]);
      assert (events + more)[..|events + more| - 1] == events + more[..n];
    }
  }

  ghost predicate OnlyTells(s: Session, after: Session) {
    && after.state == s.state && s.events <= after.events
    && forall i :: |s.events| <= i < |after.events| ==> NeedsUser(after.events[i])
  }

  lemma FoldedTells(s: Session, owner: string, batch: seq<Message.ChatMessage>, first: seq<SessionEvent>)
    requires ConversationFold.AllRoutable(owner, batch) && owner != ""
    requires forall i :: 0 <= i < |first| ==> NeedsUser(first[i])
    ensures OnlyTells(s, Folded(s, owner, batch, first))
  {
    var more := ConversationEvents(Dispatch.Announcement(s.domains.conversations, owner, batch));
    assert forall i :: 0 <= i < |more| ==> more[i] in more;
  }

  lemma SendTells(s: Session, m: Message.ChatMessage, reply: Result<Message.SendMessageAck>)
    requires Lifecycle(s)
    ensures OnlyTells(s, SendStep(s, m, reply).0)
  {
    if s.state.LoggedIn? && m.sendId == s.login.value && Message.ValidMessage(m) && Message.SendOutcome(m, reply).1.Ok? {
      var stored := WithMessages(s, s.domains.messages[Message.MessageKey(m) := Message.SendOutcome(m, reply).0]);
      SentRoutable(s.login.value, m, reply);
      FoldedTells(stored, s.login.value, [Message.SendOutcome(m, reply).1.value], []);
    }
  }

  lemma PullTells(s: Session, conversationId: string, reply: Result<seq<Message.ChatMessage>>)
    requires Lifecycle(s)
    ensures OnlyTells(s, PullStep(s, conversationId, reply).0)
  {
    if PullStep(s, conversationId, reply).0 != s {
      Dispatch.ValidRoutable(s.login.value, reply.value);
      var stored := WithMessages(s, PullStep(s, conversationId, reply).0.domains.messages);
      FoldedTells(stored, s.login.value, reply.value, [NewMessages(reply.value)]);
    }
  }

  lemma ReceiveTells(s: Session, pushed: Result<seq<Message.ChatMessage>>)
    requires Lifecycle(s)
    ensures OnlyTells(s, ReceiveStep(s, pushed).0)
  {
    if s.state.LoggedIn? && pushed.Ok? && AcceptedCount(s.login.value, pushed.value) == |pushed.value| {
      ReceivedRoutable(s.login.value, pushed.value);
      var stored := WithMessages(s, ReceiveStep(s, pushed).0.domains.messages);
      FoldedTells(stored, s.login.value, ReceivedAll(pushed.value), [NewMessages(ReceivedAll(pushed.value))]);
    }
  }

  lemma AnnouncementTells(s: Session, batch: Dispatch.DispatchBatch)
    ensures OnlyTells(s, DispatchStep(s, ConversationEvents(batch)).0)
  {
    var more := ConversationEvents(batch);
    assert forall i :: 0 <= i < |more| ==> more[i] in more;
  }

  lemma DispatchTells(config: SessionConfig, s: Session, call: Call)
    requires Lifecycle(s) && !AboutLifecycle(call) && !call.Send? && !call.Pull? && !call.Receive?
    ensures OnlyTells(s, Next(config, s, call))
  {
    match call {
      case DispatchNewConversations(created) => AnnouncementTells(s, Dispatch.DispatchBatch(created, [], None));
      case DispatchConversationChanged(changed) => AnnouncementTells(s, Dispatch.DispatchBatch([], changed, None));
      case _ =>
    }
  }

  /** What a call that is not about the lifecycle adds to the log. */
  lemma MessageCallTells(config: SessionConfig, s: Session, call: Call)
    requires Lifecycle(s) && !AboutLifecycle(call)
    ensures OnlyTells(s, Next(config, s, call))
  {
    match call {
      case Send(m, reply) => SendTells(s, m, reply);
      case Pull(id, reply) => PullTells(s, id, reply);
      case Receive(pushed) => ReceiveTells(s, pushed);
      case _ => DispatchTells(config, s, call);
    }
  }

  lemma OnlyTellsKeepsState(s: Session, after: Session)
    requires OnlyTells(s, after)
    ensures LastState(after.events) == LastState(s.events)
  {
    var more := after.events[|s.events|..];
    assert after.events == s.events + more;
    LastStateStays(s.events, more);
  }

  lemma TaskCallKeepsState(s: Session, name: string)
    ensures var after := StartTaskStep(s, name).0;
      after.state == s.state && LastState(after.events) == LastState(s.events)
    ensures var after := StopTaskStep(s, name).0;
      after.state == s.state && LastState(after.events) == LastState(s.events)
  {
    LastStateStays(s.events, [TaskStarted(name)]);
    LastStateStays(s.events, [TaskStopped(name)]);
  }

  lemma LoginCallTold(config: SessionConfig, s: Session, c: LoginCredentials, answers: LoginAnswers)
    requires s.state == LastState(s.events)
    ensures var after := LoginStep(config, s, c, answers).0;
      after.state == LastState(after.events)
  {
  }

  lemma EndCallTold(s: Session, answer: Result<Unit>, closes: Closes, state: SessionState, last: SessionEvent)
    requires s.state == LastState(s.events) && AboutState(last) && StateOf(last) == state
    ensures var after := EndStep(s, answer, closes, state, last).0;
      after.state == LastState(after.events)
  {
    var (after, r) := EndStep(s, answer, closes, state, last);
    if r.Ok? {
      assert after.events[|after.events| - 1] == last;
    } else {
      assert after.events == s.events;
    }
  }

  lemma LifecycleCallTold(config: SessionConfig, s: Session, call: Call)
    requires Lifecycle(s) && s.state == LastState(s.events)
    requires call.Init? || call.Login? || call.Logout? || call.Uninit?
    ensures Next(config, s, call).state == LastState(Next(config, s, call).events)
  {
    match call {
      case Login(c, answers) => LoginCallTold(config, s, c, answers);
      case Logout(answer, closes) =>
        if s.login.Some? {
          EndCallTold(s, answer, closes, SessionState.LoggedOut, SessionEvent.LoggedOut(s.login.value));
        }
      case Uninit(answer, closes) => EndCallTold(s, answer, closes, SessionState.Uninitialized, SessionEvent.Uninitialized);
      case _ =>
    }
  }

  lemma LogKeepsState(config: SessionConfig, s: Session, call: Call)
    requires Lifecycle(s) && s.state == LastState(s.events)
    ensures Next(config, s, call).state == LastState(Next(config, s, call).events)
  {
    if !AboutLifecycle(call) {
      MessageCallTells(config, s, call);
      OnlyTellsKeepsState(s, Next(config, s, call));
    } else {
      match call {
        case StartTask(name) => TaskCallKeepsState(s, name);
        case StopTask(name) => TaskCallKeepsState(s, name);
        case _ => LifecycleCallTold(config, s, call);
      }
    }
  }

  /** In any run the log tells the state. */
  lemma {:induction false} StateTold(config: SessionConfig, calls: seq<Call>)
    ensures Run(config, calls).state == LastState(Run(config, calls).events)
  {
    if calls != [] {
      StateTold(config, calls[..|calls| - 1]);
      LogKeepsState(config, Run(config, calls[..|calls| - 1]), calls[|calls| - 1]);
    }
  }

  /** Event `i` is the last one about the state. */
  predicate LastAboutState(events: seq<SessionEvent>, i: nat) {
    i < |events| && AboutState(events[i]) && forall j :: i < j < |events| ==> !AboutState(events[j])
  }

  lemma LastAboutStateSnoc(events: seq<SessionEvent>, i: nat)
    requires events != []
    ensures LastAboutState(events, i) <==>
      var n := |events| - 1; if AboutState(events[n]) then i == n else LastAboutState(events[..n], i)
  {
    var n := |events| - 1;
    assert forall j :: 0 <= j < n ==> events[..n][j] == events[j];
    if LastAboutState(events, i) && i < n {
      assert !AboutState(events[n]);
    }
    if i < n && !AboutState(events[n]) && LastAboutState(events[..n], i) {
      assert forall j :: i < j < n ==> !AboutState(events[..n][j]);
    }
  }

  /** The last event about the state, if there is one, is what `LastState` reports. */
  lemma {:induction false} LastStateIs(events: seq<SessionEvent>)
    ensures LastState(events) == SessionState.Created <==> !exists i: nat :: LastAboutState(events, i)
    ensures forall i: nat :: LastAboutState(events, i) ==> LastState(events) == StateOf(events[i])
  {
    if events != [] {
      var n := |events| - 1;
      LastStateIs(events[..n]);
      forall i: nat
        ensures LastAboutState(events, i) <==> if AboutState(events[n]) then i == n else LastAboutState(events[..n], i)
      {
        LastAboutStateSnoc(events, i);
      }
      if AboutState(events[n]) {
        assert LastAboutState(events, n);
      }
    }
  }

  /** In any run, a right login succeeds exactly if the last event about the session's state
      told of its being initialised or logged out. */
  lemma LoginAdmittedIff(config: SessionConfig, calls: seq<Call>, c: LoginCredentials, answers: LoginAnswers)
    requires RightLogin(config, c, answers)
    ensures var s := Run(config, calls);
      LoginStep(config, s, c, answers).1.Ok? <==>
        exists i: nat :: LastAboutState(s.events, i) && (s.events[i].Initialized? || s.events[i].LoggedOut?)
  {
    var s := Run(config, calls);
    StateTold(config, calls);
    LastStateIs(s.events);
    LoginSucceedsIff(config, s, c, answers);
    if s.state.Initialized? || s.state.LoggedOut? {
      var i: nat :| LastAboutState(s.events, i);
    }
  }

  lemma ReadyStays(config: SessionConfig, s: Session, call: Call)
    requires Lifecycle(s) && (s.state.Initialized? || s.state.LoggedOut?) && !call.Login? && !call.Uninit?
    ensures Next(config, s, call).state == s.state
  {
    if !AboutLifecycle(call) {
      MessageCallTells(config, s, call);
    }
  }

  lemma RunSnoc(config: SessionConfig, calls: seq<Call>, call: Call)
    ensures Run(config, calls + [call]) == Next(config, Run(config, calls), call)
  {
    assert (calls + [call])[..|calls + [call]| - 1] == calls;
  }

  ghost predicate ReadyAfter(config: SessionConfig, calls: seq<Call>) {
    Run(config, calls).state.Initialized? || Run(config, calls).state.LoggedOut?
  }

  lemma ReadyOneMore(config: SessionConfig, calls: seq<Call>, call: Call)
    requires ReadyAfter(config, calls) && !call.Login? && !call.Uninit?
    ensures ReadyAfter(config, calls + [call])
  {
    RunSnoc(config, calls, call);
    ReadyStays(config, Run(config, calls), call);
  }

  lemma {:induction false} KeptThroughout(p: seq<Call> -> bool, calls: seq<Call>, later: seq<Call>)
    requires p(calls) && forall before, call :: p(before) && call in later ==> p(before + [call])
    ensures p(calls + later)
  {
    if later == [] {
      assert calls + later == calls;
    } else {
      var n := |later| - 1;
      KeptThroughout(p, calls, later[..n]);
      assert calls + later == (calls + later[..n]) + [later[n]];
    }
  }

  lemma ReadyThroughout(config: SessionConfig, calls: seq<Call>, later: seq<Call>)
    requires ReadyAfter(config, calls)
    requires forall call :: call in later ==> !call.Login? && !call.Uninit?
    ensures ReadyAfter(config, calls + later)
  {
    var ready := (before: seq<Call>) => ReadyAfter(config, before);
    forall before, call | ready(before) && call in later ensures ready(before + [call]) {
      ReadyOneMore(config, before, call);
    }
    KeptThroughout(ready, calls, later);
  }

  lemma LoginAdmittedLater(config: SessionConfig, calls: seq<Call>, later: seq<Call>, c: LoginCredentials, answers: LoginAnswers)
    requires ReadyAfter(config, calls)
    requires forall call :: call in later ==> !call.Login? && !call.Uninit?
    requires RightLogin(config, c, answers)
    ensures LoginStep(config, Run(config, calls + later), c, answers).1 == Ok(Unit)
  {
    ReadyThroughout(config, calls, later);
    LoginSucceedsIff(config, Run(config, calls + later), c, answers);
  }

  lemma ReadyAfterLogout(config: SessionConfig, calls: seq<Call>, answer: Result<Unit>, closes: Closes)
    requires Run(config, calls).login.Some? && LogoutStep(Run(config, calls), answer, closes).1.Ok?
    ensures ReadyAfter(config, calls + [Logout(answer, closes)])
  {
    RunSnoc(config, calls, Logout(answer, closes));
    LogoutOutcome(Run(config, calls), answer, closes);
  }

  /** Whatever was called before and is called after, as long as it is no login and no uninit:
      after a logout that succeeded for somebody, a right login of anybody succeeds. */
  lemma LoginAfterLogout(config: SessionConfig, calls: seq<Call>, answer: Result<Unit>, closes: Closes, later: seq<Call>,
                         c: LoginCredentials, answers: LoginAnswers)
    requires Run(config, calls).login.Some? && LogoutStep(Run(config, calls), answer, closes).1.Ok?
    requires forall call :: call in later ==> !call.Login? && !call.Uninit?
    requires RightLogin(config, c, answers)
    ensures LoginStep(config, Run(config, calls + [Logout(answer, closes)] + later), c, answers).1 == Ok(Unit)
  {
    ReadyAfterLogout(config, calls, answer, closes);
    LoginAdmittedLater(config, calls + [Logout(answer, closes)], later, c, answers);
  }

  lemma InitAfterUninit(config: SessionConfig, s: Session, answer: Result<Unit>, closes: Closes)
    requires Lifecycle(s) && UninitStep(s, answer, closes).1.Ok?
    ensures var ended := Next(config, s, Uninit(answer, closes));
      Lifecycle(ended) ==> Next(config, ended, Init(Ok(Unit))).state == SessionState.Initialized
  {
    UninitOutcome(s, answer, closes);
    InitOutcome(UninitStep(s, answer, closes).0, Ok(Unit));
  }

  lemma ReadyAfterUninit(config: SessionConfig, calls: seq<Call>, answer: Result<Unit>, closes: Closes)
    requires UninitStep(Run(config, calls), answer, closes).1.Ok?
    ensures ReadyAfter(config, calls + [Uninit(answer, closes)] + [Init(Ok(Unit))])
  {
    var ended := calls + [Uninit(answer, closes)];
    RunSnoc(config, calls, Uninit(answer, closes));
    RunSnoc(config, ended, Init(Ok(Unit)));
    InitAfterUninit(config, Run(config, calls), answer, closes);
  }

  /** The same after an uninit and an init that succeeded. */
  lemma LoginAfterUninit(config: SessionConfig, calls: seq<Call>, answer: Result<Unit>, closes: Closes, later: seq<Call>,
                         c: LoginCredentials, answers: LoginAnswers)
    requires UninitStep(Run(config, calls), answer, closes).1.Ok?
    requires forall call :: call in later ==> !call.Login? && !call.Uninit?
    requires RightLogin(config, c, answers)
    ensures LoginStep(config, Run(config, calls + [Uninit(answer, closes)] + [Init(Ok(Unit))] + later), c, answers).1 == Ok(Unit)
  {
    ReadyAfterUninit(config, calls, answer, closes);
    LoginAdmittedLater(config, calls + [Uninit(answer, closes)] + [Init(Ok(Unit))], later, c, answers);
  }

  /** In any run, the user a logout is told of is the one whose login was told of last. */
  lemma LogoutMatchesLogin(config: SessionConfig, calls: seq<Call>, k: nat) returns (i: nat)
    requires k < |Run(config, calls).events| && Run(config, calls).events[k].LoggedOut?
    ensures var events := Run(config, calls).events;
      && i < k && events[i] == SessionEvent.LoggedIn(events[k].userId)
      && forall j :: i < j < k ==> !EndsLogin(events[j]) && !events[j].LoggedIn?
  {
    i := LogoutOfLastLogin(Run(config, calls).events, k);
  }

  /** ... and between two logins somebody was logged out or the session uninitialised. */
  lemma LoginsTakeTurns(config: SessionConfig, calls: seq<Call>, i: nat, k: nat)
    requires i < k < |Run(config, calls).events|
    requires Run(config, calls).events[i].LoggedIn? && Run(config, calls).events[k].LoggedIn?
    ensures exists j :: i < j < k && EndsLogin(Run(config, calls).events[j])
  {
    EndBetweenLogins(Run(config, calls).events, i, k);
  }
}
