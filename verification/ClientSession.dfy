/** The session object: it owns the domain services, the tasks and the runtime resources,
    and every call on it does what SessionSteps says. */
module ClientSession {
  import opened Common
  import Relation
  import Group
  import opened Message
  import Conversation
  import ConversationFold
  import Tasks
  import opened SessionResources
  import Dispatch
  import opened SessionEvents
  import opened SessionSteps
  import SessionCalls

  class DomainServices {
    const messages: MessageService
    const conversations: Conversation.ConversationService
    const relations: Relation.RelationService
    const groups: Group.GroupService

    ghost function Objects(): set<object> {
      {messages, conversations, relations, groups}
    }

    ghost function Value(): Domains
      reads Objects()
    {
      Domains(messages.messages, conversations.conversations, relations.friends, relations.blacklist,
              groups.groups, groups.members)
    }

    ghost predicate Valid()
      reads Objects()
    {
      messages.Valid() && conversations.Valid() && relations.Valid() && groups.Valid()
    }

    constructor ()
      ensures Valid() && Value() == NO_DOMAINS
      ensures fresh(Objects())
    {
      messages := new MessageService();
      conversations := new Conversation.ConversationService();
      relations := new Relation.RelationService();
      groups := new Group.GroupService();
    }
  }

  class OpenImSession {
    const config: SessionConfig
    const tasks: Tasks.TaskSupervisor
    var state: SessionState
    var loginUserId: Option<string>
    var domains: DomainServices
    var runtime: SessionRuntimeResources?

    /** What listeners were told, and the handles that came and went. */
    ghost var events: seq<SessionEvent>
    ghost var acquired: seq<nat>
    ghost var closed: seq<nat>

    ghost function RuntimeObject(): set<object>
      reads this
    {
      if runtime == null then {} else {runtime}
    }

    ghost function Objects(): set<object>
      reads this
    {
      {this, tasks} + domains.Objects() + RuntimeObject()
    }

    /** Every object the session works with was its own before or is new. */
    twostate predicate FreshParts()
      reads this
    {
      (domains == old(domains) || fresh(domains.Objects()))
      && (runtime == null || runtime == old(runtime) || fresh(runtime))
    }

    ghost function Value(): Session
      reads this, Objects()
    {
      Session(state, loginUserId, if runtime == null then None else Some(runtime.State()),
              domains.Value(), tasks.tasks, events, acquired, closed)
    }

    ghost predicate PartsValid()
      reads this, Objects()
    {
      domains.Valid() && tasks.Valid()
    }

    ghost predicate Valid()
      reads this, Objects()
    {
      PartsValid() && Lifecycle(Value())
    }

    constructor (config: SessionConfig)
      ensures Valid() && fresh(Objects())
      ensures this.config == config && Value() == NEW_SESSION
    {
      this.config := config;
      tasks := new Tasks.TaskSupervisor();
      domains := new DomainServices();
      state, loginUserId, runtime := SessionState.Created, None, null;
      events, acquired, closed := [], [], [];
    }

    method Init(adapter: Result<Unit>) returns (r: Result<Unit>)
      requires Valid()
      modifies this
      ensures Valid() && domains == old(domains) && runtime == old(runtime)
      ensures (Value(), r) == InitStep(old(Value()), adapter)
    {
      if state.Created? || state.Uninitialized? {
        if adapter.Err? {
          return adapter;
        }
        state := SessionState.Initialized;
        events := events + [SessionEvent.Initialized];
      }
      return Ok(Unit);
    }

    // ----- tasks -----

    method StartTask(name: string) returns (r: Result<Unit>)
      requires PartsValid()
      modifies this`events, tasks
      ensures PartsValid()
      ensures (Value(), r) == StartTaskStep(old(Value()), name)
    {
      var started := tasks.Start(name);
      if started.Err? {
        return Err(started.error);
      }
      if started.value {
        events := events + [TaskStarted(name)];
      }
      return Ok(Unit);
    }

    method StopTask(name: string) returns (r: Result<Unit>)
      requires PartsValid()
      modifies this`events, tasks
      ensures PartsValid()
      ensures (Value(), r) == StopTaskStep(old(Value()), name)
    {
      var stopped := tasks.Stop(name);
      if stopped.Err? {
        return Err(stopped.error);
      }
      if stopped.value {
        events := events + [TaskStopped(name)];
      }
      return Ok(Unit);
    }

    method StopAllTasks()
      requires tasks.Valid()
      modifies this`events, tasks
      ensures tasks.Valid() && tasks.tasks == []
      ensures events == old(events) + StoppedEvents(Tasks.RunningNames(old(tasks.tasks)))
    {
      var names := tasks.StopAll();
      EmitStopped(names);
    }

    method EmitStopped(names: seq<string>)
      modifies this`events
      ensures events == old(events) + StoppedEvents(names)
    {
      for i := 0 to |names|
        invariant events == old(events) + StoppedEvents(names[..i])
      {
        assert StoppedEvents(names[..i + 1]) == StoppedEvents(names[..i]) + [TaskStopped(names[i])];
        events := events + [TaskStopped(names[i])];
      }
      assert names[..|names|] == names;
    }

    method EmitOpened(resources: seq<Resource>)
      modifies this`events
      ensures events == old(events) + OpenedEvents(resources)
    {
      for i := 0 to |resources|
        invariant events == old(events) + OpenedEvents(resources[..i])
      {
        var e := ResourceOpened(resources[i].kind, resources[i].name);
        assert OpenedEvents(resources[..i + 1]) == OpenedEvents(resources[..i]) + [e];
        events := events + [e];
      }
      assert resources[..|resources|] == resources;
    }

    method EmitClosed(resources: seq<Resource>)
      modifies this`events
      ensures events == old(events) + ClosedEvents(resources)
    {
      for i := 0 to |resources|
        invariant events == old(events) + ClosedEvents(resources[..i])
      {
        var e := ResourceClosed(resources[i].kind, resources[i].name);
        assert ClosedEvents(resources[..i + 1]) == ClosedEvents(resources[..i]) + [e];
        events := events + [e];
      }
      assert resources[..|resources|] == resources;
    }

    // ----- login, logout, uninit -----

    method Login(c: LoginCredentials, answers: LoginAnswers) returns (r: Result<Unit>)
      requires Valid()
      modifies Objects()
      ensures Valid() && FreshParts()
      ensures (Value(), r) == LoginStep(config, old(Value()), c, answers)
      ensures r.Ok? <==> (old(state).Initialized? || old(state).LoggedOut?) && SessionCalls.RightLogin(config, c, answers)
    {
      SessionCalls.LoginSucceedsIff(config, Value(), c, answers);
      if !ValidCredentials(c) {
        return Err(Args);
      }
      if !state.Initialized? && !state.LoggedOut? {
        return Err(Args);
      }
      var transport := TransportFor(config, c, answers.operationId);
      var storage := StorageFor(config, c, answers.dbFile);
      if storage.Err? {
        return Err(storage.error);
      }
      if answers.adapter.Err? {
        return Err(answers.adapter.error);
      }
      var answered := answers.adapter.value;
      if !Matches(answered, c, transport, storage.value) {
        return Err(SdkInternal);
      }
      Enter(c.userId, answered);
      return Ok(Unit);
    }

    /** Takes over the resources and starts with empty domain services. */
    method Admit(userId: string, answered: Runtime)
      requires tasks.Valid()
      modifies this
      ensures PartsValid() && FreshParts() && runtime != null && fresh(runtime) && fresh(domains.Objects())
      ensures Value() == old(Value()).(state := SessionState.LoggedIn, login := Some(userId), runtime := Some(answered),
                                       domains := NO_DOMAINS, acquired := old(acquired) + Handles(answered.resources))
    {
      loginUserId := Some(userId);
      runtime := new SessionRuntimeResources(answered);
      acquired := acquired + Handles(answered.resources);
      domains := new DomainServices();
      state := SessionState.LoggedIn;
    }

    method Enter(userId: string, answered: Runtime)
      requires PartsValid() && userId != "" && answered.userId == userId
      modifies Objects()
      ensures Valid() && FreshParts()
      ensures Value() == Entered(old(Value()), userId, answered)
    {
      Admit(userId, answered);
      ghost var entered := Value();
      var transportTask := StartTask(TRANSPORT_TASK);
      assert Value() == Started(entered, TRANSPORT_TASK);
      var syncTask := StartTask(SYNC_TASK);
      assert Value() == Started(Started(entered, TRANSPORT_TASK), SYNC_TASK);
      EmitOpened(answered.resources);
      events := events + [SessionEvent.LoggedIn(userId)];
    }

    method CloseRuntimeResources(closes: Closes) returns (r: Result<seq<Resource>>)
      requires PartsValid()
      modifies this`runtime, this`closed, RuntimeObject()
      ensures PartsValid() && (runtime == null || runtime == old(runtime))
      ensures Value() == CloseRuntime(old(Value()), closes).0 && r == CloseRuntime(old(Value()), closes).1
      ensures if r.Ok? then runtime == null else old(Lifecycle(Value())) ==> Valid()
    {
      if runtime == null {
        return Ok([]);
      }
      closed := closed + Handles(ClosedBy(runtime.resources, closes));
      r := runtime.CloseAll(closes);
      if r.Ok? {
        runtime := null;
      }
    }

    method Leave(next: SessionState, resources: seq<Resource>, last: SessionEvent)
      requires PartsValid() && runtime == null && !next.LoggedIn?
      modifies this, tasks
      ensures Valid() && runtime == null && fresh(domains.Objects())
      ensures Value() == Left(old(Value()), next, resources, last)
    {
      StopAllTasks();
      loginUserId := None;
      domains := new DomainServices();
      state := next;
      EmitClosed(resources);
      events := events + [last];
    }

    /** The common part of logout and uninit. */
    method End(closes: Closes, next: SessionState, last: SessionEvent) returns (r: Result<Unit>)
      requires Valid() && !next.LoggedIn?
      modifies this, tasks, RuntimeObject()
      ensures Valid() && FreshParts()
      ensures Value() == EndStep(old(Value()), Ok(Unit), closes, next, last).0
      ensures r == EndStep(old(Value()), Ok(Unit), closes, next, last).1
    {
      var resources := CloseRuntimeResources(closes);
      if resources.Err? {
        return Err(resources.error);
      }
      Leave(next, resources.value, last);
      return Ok(Unit);
    }

    method Logout(adapter: Result<Unit>, closes: Closes) returns (r: Result<Unit>)
      requires Valid()
      modifies Objects()
      ensures Valid() && FreshParts()
      ensures (Value(), r) == LogoutStep(old(Value()), adapter, closes)
    {
      if loginUserId.None? {
        return Ok(Unit);
      }
      if adapter.Err? {
        return adapter;
      }
      r := End(closes, SessionState.LoggedOut, SessionEvent.LoggedOut(loginUserId.value));
    }

    method Uninit(adapter: Result<Unit>, closes: Closes) returns (r: Result<Unit>)
      requires Valid()
      modifies Objects()
      ensures Valid() && FreshParts()
      ensures (Value(), r) == UninitStep(old(Value()), adapter, closes)
    {
      if adapter.Err? {
        return adapter;
      }
      r := End(closes, SessionState.Uninitialized, SessionEvent.Uninitialized);
    }

    // ----- announcing -----

    method DispatchNewMessages(messages: seq<ChatMessage>) returns (r: Result<Unit>)
      modifies this`events
      ensures r == if old(state).LoggedIn? then Ok(Unit) else Err(Args)
      ensures events == old(events) + (if r.Err? || messages == [] then [] else [NewMessages(messages)])
    {
      if !state.LoggedIn? {
        return Err(Args);
      }
      if messages != [] {
        events := events + [NewMessages(messages)];
      }
      return Ok(Unit);
    }

    method DispatchNewConversations(conversations: seq<Conversation.ConversationInfo>) returns (r: Result<Unit>)
      modifies this`events
      ensures r == if old(state).LoggedIn? then Ok(Unit) else Err(Args)
      ensures events == old(events) + (if r.Err? || conversations == [] then [] else [NewConversations(conversations)])
    {
      if !state.LoggedIn? {
        return Err(Args);
      }
      if conversations != [] {
        events := events + [NewConversations(conversations)];
      }
      return Ok(Unit);
    }

    method DispatchConversationChanged(conversations: seq<Conversation.ConversationInfo>) returns (r: Result<Unit>)
      modifies this`events
      ensures r == if old(state).LoggedIn? then Ok(Unit) else Err(Args)
      ensures events == old(events) + (if r.Err? || conversations == [] then [] else [ConversationChanged(conversations)])
    {
      if !state.LoggedIn? {
        return Err(Args);
      }
      if conversations != [] {
        events := events + [ConversationChanged(conversations)];
      }
      return Ok(Unit);
    }

    method DispatchTotalUnreadCountChanged(total: u32) returns (r: Result<Unit>)
      modifies this`events
      ensures r == if old(state).LoggedIn? then Ok(Unit) else Err(Args)
      ensures events == old(events) + (if r.Err? then [] else [TotalUnreadCountChanged(total)])
    {
      if !state.LoggedIn? {
        return Err(Args);
      }
      events := events + [TotalUnreadCountChanged(total)];
      return Ok(Unit);
    }

    method DispatchConversationEvents(batch: Dispatch.DispatchBatch)
      requires state.LoggedIn?
      modifies this`events
      ensures events == old(events) + ConversationEvents(batch)
    {
      var created :- assert DispatchNewConversations(batch.created);
      var changed :- assert DispatchConversationChanged(batch.changed);
      if batch.totalUnread.Some? {
        var total :- assert DispatchTotalUnreadCountChanged(batch.totalUnread.value);
      }
    }

    // ----- messages -----

    /** Tells listeners of new messages and of what they changed. */
    method Tell(news: seq<ChatMessage>, announcement: Dispatch.DispatchBatch)
      requires state.LoggedIn?
      modifies this`events
      ensures events == old(events) + (if news == [] then [] else [NewMessages(news)]) + ConversationEvents(announcement)
    {
      var told :- assert DispatchNewMessages(news);
      DispatchConversationEvents(announcement);
    }

    /** Folds a batch into the conversations and tells listeners of it, after the messages
        they are to hear of. */
    method FoldAndTell(owner: string, batch: seq<ChatMessage>, news: seq<ChatMessage>)
      requires Valid() && state.LoggedIn? && owner != ""
      requires ConversationFold.AllRoutable(owner, batch)
      requires forall i :: 0 <= i < |batch| ==> batch[i].conversationId != ""
      modifies this`events, domains.conversations
      ensures Valid()
      ensures Value() == Folded(old(Value()), owner, batch, if news == [] then [] else [NewMessages(news)])
    {
      var announcement := Dispatch.ApplyMessagesToConversations(domains.conversations, owner, batch);
      Tell(news, announcement);
    }

    method SendMessage(m: ChatMessage, reply: Result<SendMessageAck>) returns (r: Result<ChatMessage>)
      requires Valid()
      modifies this`events, domains.messages, domains.conversations
      ensures Valid()
      ensures (Value(), r) == SendStep(old(Value()), m, reply)
    {
      if !state.LoggedIn? {
        return Err(Args);
      }
      var owner := loginUserId.value;
      if m.sendId != owner {
        return Err(Args);
      }
      r := domains.messages.SendMessage(m, reply);
      if r.Err? {
        return r;
      }
      SentRoutable(owner, m, reply);
      FoldAndTell(owner, [r.value], []);
    }

    /** Nothing can fail once the pulled messages are accepted, so an error changes nothing. */
    method PullMessages(conversationId: string, reply: Result<seq<ChatMessage>>) returns (r: Result<seq<ChatMessage>>)
      requires Valid()
      modifies this`events, domains.messages, domains.conversations
      ensures Valid()
      ensures (Value(), r) == PullStep(old(Value()), conversationId, reply)
      ensures r.Err? ==> Value() == old(Value())
    {
      if !state.LoggedIn? || conversationId == "" {
        return Err(Args);
      }
      if reply.Err? || reply.value == [] {
        return reply;
      }
      var visible := CheckVisible(loginUserId.value, reply.value);
      if !visible {
        return Err(Args);
      }
      r := StorePulled(loginUserId.value, conversationId, reply.value);
    }

    method StorePulled(owner: string, conversationId: string, batch: seq<ChatMessage>) returns (r: Result<seq<ChatMessage>>)
      requires Valid() && state.LoggedIn? && loginUserId == Some(owner)
      requires conversationId != "" && batch != [] && AllVisible(owner, batch)
      modifies this`events, domains.messages, domains.conversations
      ensures Valid()
      ensures (Value(), r) == PullStep(old(Value()), conversationId, Ok(batch))
    {
      var synced := domains.messages.SyncMessageRange(conversationId, batch);
      if synced.Err? {
        return Err(synced.error);
      }
      Dispatch.ValidRoutable(owner, batch);
      FoldAndTell(owner, batch, batch);
      return Ok(batch);
    }

    method ReceiveTransportPushes(pushed: Result<seq<ChatMessage>>) returns (r: Result<seq<ChatMessage>>)
      requires Valid()
      modifies this`events, domains.messages, domains.conversations
      ensures Valid()
      ensures (Value(), r) == ReceiveStep(old(Value()), pushed)
    {
      if !state.LoggedIn? {
        return Err(Args);
      }
      if pushed.Err? || pushed.value == [] {
        return pushed;
      }
      r := ApplyTransportMessages(loginUserId.value, pushed.value);
    }

    method ApplyTransportMessages(owner: string, batch: seq<ChatMessage>) returns (r: Result<seq<ChatMessage>>)
      requires Valid() && state.LoggedIn? && loginUserId == Some(owner) && batch != []
      modifies this`events, domains.messages, domains.conversations
      ensures Valid()
      ensures (Value(), r) == ReceiveStep(old(Value()), Ok(batch))
    {
      r := StoreReceived(domains.messages, owner, batch);
      if r.Err? {
        return r;
      }
      assert batch[..|batch|] == batch;
      ReceivedRoutable(owner, batch);
      FoldAndTell(owner, r.value, r.value);
    }
  }

  method CheckVisible(owner: string, batch: seq<ChatMessage>) returns (visible: bool)
    ensures visible == AllVisible(owner, batch)
  {
    for i := 0 to |batch|
      invariant forall j :: 0 <= j < i ==> Dispatch.VisibleTo(owner, batch[j])
    {
      if !Dispatch.VisibleTo(owner, batch[i]) {
        return false;
      }
    }
    return true;
  }

  lemma StoreOneMore(messages: map<(string, string), ChatMessage>, batch: seq<ChatMessage>, i: nat)
    requires i < |batch|
    ensures StoreAll(messages, batch[..i + 1])
         == StoreAll(messages, batch[..i])[MessageKey(batch[i]) := Received(batch[i])]
    ensures ReceivedAll(batch[..i + 1]) == ReceivedAll(batch[..i]) + [Received(batch[i])]
  {
    TakeSnoc(batch, i);
  }

  method ReceiveVisible(service: MessageService, owner: string, m: ChatMessage) returns (r: Result<ChatMessage>)
    requires service.Valid()
    modifies service
    ensures service.Valid()
    ensures r == if Receivable(owner, m) then Ok(Received(m)) else Err(Args)
    ensures service.messages == if r.Ok? then old(service.messages)[MessageKey(m) := Received(m)] else old(service.messages)
  {
    if !Dispatch.VisibleTo(owner, m) {
      return Err(Args);
    }
    r := service.ReceiveMessage(m);
  }

  /** The first `i` messages are stored and received. */
  ghost predicate StoredUpTo(before: map<(string, string), ChatMessage>, owner: string, batch: seq<ChatMessage>, i: nat,
                             now: map<(string, string), ChatMessage>, received: seq<ChatMessage>)
  {
    && i <= |batch| && now == StoreAll(before, batch[..i]) && received == ReceivedAll(batch[..i])
    && forall j :: 0 <= j < i ==> Receivable(owner, batch[j])
  }

  lemma StoredOneMore(before: map<(string, string), ChatMessage>, owner: string, batch: seq<ChatMessage>, i: nat,
                      now: map<(string, string), ChatMessage>, received: seq<ChatMessage>)
    requires StoredUpTo(before, owner, batch, i, now, received) && i < |batch| && Receivable(owner, batch[i])
    ensures StoredUpTo(before, owner, batch, i + 1, now[MessageKey(batch[i]) := Received(batch[i])],
                       received + [Received(batch[i])])
  {
    StoreOneMore(before, batch, i);
  }

  lemma StoringStops(before: map<(string, string), ChatMessage>, owner: string, batch: seq<ChatMessage>, i: nat,
                     now: map<(string, string), ChatMessage>, received: seq<ChatMessage>)
    requires StoredUpTo(before, owner, batch, i, now, received) && (i < |batch| ==> !Receivable(owner, batch[i]))
    ensures AcceptedCount(owner, batch) == i && now == StoreAll(before, batch[..i])
    ensures i == |batch| ==> received == ReceivedAll(batch)
  {
    AcceptedCountIs(owner, batch, i);
    assert batch[..|batch|] == batch;
  }

  /** Stores pushed messages one by one up to the first that is not acceptable. */
  method StoreReceived(service: MessageService, owner: string, batch: seq<ChatMessage>)
    returns (r: Result<seq<ChatMessage>>)
    requires service.Valid()
    modifies service
    ensures service.Valid()
    ensures service.messages == StoreAll(old(service.messages), batch[..AcceptedCount(owner, batch)])
    ensures r == if AcceptedCount(owner, batch) == |batch| then Ok(ReceivedAll(batch)) else Err(Args)
  {
    ghost var before := service.messages;
    var received: seq<ChatMessage> := [];
    for i := 0 to |batch|
      invariant service.Valid()
      invariant StoredUpTo(before, owner, batch, i, service.messages, received)
    {
      ghost var now := service.messages;
      var one := ReceiveVisible(service, owner, batch[i]);
      if one.Err? {
        StoringStops(before, owner, batch, i, now, received);
        return Err(one.error);
      }
      StoredOneMore(before, owner, batch, i, now, received);
      received := received + [one.value];
    }
    StoringStops(before, owner, batch, |batch|, service.messages, received);
    return Ok(received);
  }
}
