/** What each call does to a session, as a function of the session and of what the resource
    adapter, the transport and the resources answer. */
module SessionSteps {
  import opened Common
  import OrderedMap
  import SyncDiff
  import ScopeSync
  import Relation
  import Group
  import opened Message
  import Conversation
  import ConversationFold
  import Tasks
  import opened SessionResources
  import Dispatch
  import opened SessionEvents

  datatype SessionState = Created | Initialized | LoggedIn | LoggedOut | Uninitialized

  datatype SessionConfig = SessionConfig(isWeb: bool, platformId: int, wsAddr: string, dataDir: Option<string>)

  datatype LoginCredentials = LoginCredentials(userId: string, token: string)

  /** What the domain services hold. */
  datatype Domains = Domains(
    messages: map<(string, string), ChatMessage>, conversations: ConversationFold.Conversations,
    friends: map<(string, string), Relation.FriendInfo>, blacklist: map<(string, string), Relation.BlacklistInfo>,
    groups: map<string, Group.GroupInfo>, members: map<(string, string), Group.GroupMemberInfo>)

  const NO_DOMAINS := Domains(map[], map[], map[], map[], map[], map[])

  ghost predicate DomainsKeyed(d: Domains) {
    && SyncDiff.Keyed(d.messages, MessageKey) && SyncDiff.Keyed(d.conversations, Conversation.ConversationKey)
    && SyncDiff.Keyed(d.friends, Relation.FriendKey) && SyncDiff.Keyed(d.blacklist, Relation.BlackKey)
    && SyncDiff.Keyed(d.groups, Group.GroupKey) && "" !in d.groups && SyncDiff.Keyed(d.members, Group.MemberKey)
  }

  /** `events` is what listeners were told; `acquired` and `closed` are the handles that logins
      brought and that were closed, oldest first. */
  datatype Session = Session(
    state: SessionState, login: Option<string>, runtime: Option<Runtime>, domains: Domains, tasks: Tasks.TaskMap,
    events: seq<SessionEvent>, acquired: seq<nat>, closed: seq<nat>)

  const NEW_SESSION := Session(SessionState.Created, None, None, NO_DOMAINS, [], [], [], [])

  /** Somebody is logged in exactly while the state says so and exactly while there are
      runtime resources, which are that user's; otherwise no domain data is left. */
  ghost predicate Lifecycle(s: Session) {
    && (s.state.LoggedIn? <==> s.login.Some?)
    && (s.login.Some? <==> s.runtime.Some?)
    && (s.login.Some? ==> s.login.value != "" && s.runtime.value.userId == s.login.value)
    && (!s.state.LoggedIn? ==> s.domains == NO_DOMAINS)
    && DomainsKeyed(s.domains)
    && OrderedMap.Ordered(s.tasks)
  }

  function Emit(s: Session, events: seq<SessionEvent>): Session {
    s.(events := s.events + events)
  }

  // ----- lifecycle -----

  function InitStep(s: Session, adapter: Result<Unit>): (Session, Result<Unit>) {
    if !s.state.Created? && !s.state.Uninitialized? then (s, Ok(Unit))
    else if adapter.Err? then (s, adapter)
    else (Emit(s.(state := SessionState.Initialized), [SessionEvent.Initialized]), Ok(Unit))
  }

  const TRANSPORT_TASK := "transport"
  const SYNC_TASK := "sync"

  predicate ValidCredentials(c: LoginCredentials) {
    c.userId != "" && c.token != ""
  }

  function TransportFor(config: SessionConfig, c: LoginCredentials, operationId: string): TransportConfig {
    TransportConfig(config.wsAddr, c.userId, c.token, config.platformId, operationId,
                    "js", "rust-phase1-poc", false, true, true)
  }

  /** `dbFile` is the path found for the user's database in the data directory. */
  function StorageFor(config: SessionConfig, c: LoginCredentials, dbFile: Result<string>): Result<StorageTarget> {
    if config.isWeb then Ok(IndexedDb("OpenIM_v3_" + c.userId))
    else if config.dataDir.None? then Ok(Unconfigured)
    else match dbFile
      case Ok(path) => Ok(Sqlite(path))
      case Err(e) => Err(e)
  }

  predicate Matches(r: Runtime, c: LoginCredentials, transport: TransportConfig, storage: StorageTarget) {
    r.userId == c.userId && r.transport == transport && r.storage == storage
  }

  /** What a login asks of the outside: an operation id, the database path, the resources. */
  datatype LoginAnswers = LoginAnswers(operationId: string, dbFile: Result<string>, adapter: Result<Runtime>)

  /** The resources a login ends up with, or why it fails. */
  function AdmittedRuntime(config: SessionConfig, s: Session, c: LoginCredentials, answers: LoginAnswers)
    : (r: Result<Runtime>)
    ensures r.Ok? ==>
      && c.userId != "" && c.token != "" && (s.state.Initialized? || s.state.LoggedOut?)
      && answers.adapter == Ok(r.value)
      && r.value.userId == r.value.transport.userId == c.userId && r.value.transport.token == c.token
      && StorageFor(config, c, answers.dbFile) == Ok(r.value.storage)
  {
    if !ValidCredentials(c) || (!s.state.Initialized? && !s.state.LoggedOut?) then Err(Args)
    else
      var storage :- StorageFor(config, c, answers.dbFile);
      var runtime :- answers.adapter;
      if Matches(runtime, c, TransportFor(config, c, answers.operationId), storage) then Ok(runtime)
      else Err(SdkInternal)
  }

  function Started(s: Session, name: string): Session {
    var started := s.(tasks := OrderedMap.Put(s.tasks, name, true));
    if Tasks.IsRunning(s.tasks, name) then started else Emit(started, [TaskStarted(name)])
  }

  function Entered(s: Session, userId: string, runtime: Runtime): Session {
    var entered := s.(state := SessionState.LoggedIn, login := Some(userId), runtime := Some(runtime),
                      domains := NO_DOMAINS, acquired := s.acquired + Handles(runtime.resources));
    Emit(Emit(Started(Started(entered, TRANSPORT_TASK), SYNC_TASK), OpenedEvents(runtime.resources)),
         [SessionEvent.LoggedIn(userId)])
  }

  function LoginStep(config: SessionConfig, s: Session, c: LoginCredentials, answers: LoginAnswers)
    : (Session, Result<Unit>)
  {
    match AdmittedRuntime(config, s, c, answers)
    case Ok(runtime) => (Entered(s, c.userId, runtime), Ok(Unit))
    case Err(e) => (s, Err(e))
  }

  /** Tries to close the runtime resources.  What refuses to close stays. */
  function CloseRuntime(s: Session, closes: Closes): (Session, Result<seq<Resource>>) {
    if s.runtime.None? then (s, Ok([])) else
    var resources := s.runtime.value.resources;
    var attempted := s.(closed := s.closed + Handles(ClosedBy(resources, closes)));
    if Remaining(resources, closes) == [] then (attempted.(runtime := None), Ok(ClosedBy(resources, closes)))
    else (attempted.(runtime := Some(s.runtime.value.(resources := Remaining(resources, closes)))), Err(External))
  }

  /** Back to nobody logged in. */
  function Left(s: Session, state: SessionState, closed: seq<Resource>, last: SessionEvent): Session {
    var left := s.(state := state, login := None, domains := NO_DOMAINS, tasks := []);
    Emit(Emit(Emit(left, StoppedEvents(Tasks.RunningNames(s.tasks))), ClosedEvents(closed)), [last])
  }

  function EndStep(s: Session, adapter: Result<Unit>, closes: Closes, state: SessionState, last: SessionEvent)
    : (Session, Result<Unit>)
  {
    if adapter.Err? then (s, adapter) else
    var (attempted, closed) := CloseRuntime(s, closes);
    match closed
    case Ok(resources) => (Left(attempted, state, resources, last), Ok(Unit))
    case Err(e) => (attempted, Err(e))
  }

  function LogoutStep(s: Session, adapter: Result<Unit>, closes: Closes): (Session, Result<Unit>) {
    if s.login.None? then (s, Ok(Unit))
    else EndStep(s, adapter, closes, SessionState.LoggedOut, SessionEvent.LoggedOut(s.login.value))
  }

  function UninitStep(s: Session, adapter: Result<Unit>, closes: Closes): (Session, Result<Unit>) {
    EndStep(s, adapter, closes, SessionState.Uninitialized, SessionEvent.Uninitialized)
  }

  // ----- tasks -----

  function StartTaskStep(s: Session, name: string): (Session, Result<Unit>) {
    if name == "" then (s, Err(Args)) else (Started(s, name), Ok(Unit))
  }

  function StopTaskStep(s: Session, name: string): (Session, Result<Unit>) {
    if name == "" then (s, Err(Args))
    else if !Tasks.IsRunning(s.tasks, name) then (s, Ok(Unit))
    else (Emit(s.(tasks := OrderedMap.Put(s.tasks, name, false)), [TaskStopped(name)]), Ok(Unit))
  }

  // ----- messages -----

  /** A caller's own announcement of messages, conversations or an unread total. */
  function DispatchStep(s: Session, batch: seq<SessionEvent>): (Session, Result<Unit>) {
    if !s.state.LoggedIn? then (s, Err(Args)) else (Emit(s, batch), Ok(Unit))
  }

  /** The batch folded into the conversations, and everybody told, `first` first. */
  ghost function Folded(s: Session, owner: string, batch: seq<ChatMessage>, first: seq<SessionEvent>): Session
    requires ConversationFold.AllRoutable(owner, batch) && owner != ""
  {
    var conversations := s.domains.conversations;
    Emit(Emit(s.(domains := s.domains.(conversations := ConversationFold.FoldAll(conversations, owner, batch))), first),
         ConversationEvents(Dispatch.Announcement(conversations, owner, batch)))
  }

  function WithMessages(s: Session, messages: map<(string, string), ChatMessage>): Session {
    s.(domains := s.domains.(messages := messages))
  }

  lemma SentRoutable(owner: string, m: ChatMessage, reply: Result<SendMessageAck>)
    requires owner != "" && ValidMessage(m) && SendOutcome(m, reply).1.Ok?
    ensures ConversationFold.AllRoutable(owner, [SendOutcome(m, reply).1.value])
  {
    Dispatch.ValidRoutable(owner, [SendOutcome(m, reply).1.value]);
  }

  ghost function SendStep(s: Session, m: ChatMessage, reply: Result<SendMessageAck>): (Session, Result<ChatMessage>)
    requires Lifecycle(s)
  {
    if !s.state.LoggedIn? || m.sendId != s.login.value || !ValidMessage(m) then (s, Err(Args)) else
    var stored := WithMessages(s, s.domains.messages[MessageKey(m) := SendOutcome(m, reply).0]);
    var sent := SendOutcome(m, reply).1;
    if sent.Err? then (stored, sent) else
    SentRoutable(s.login.value, m, reply);
    (Folded(stored, s.login.value, [sent.value], []), sent)
  }

  predicate AllVisible(owner: string, batch: seq<ChatMessage>) {
    forall i :: 0 <= i < |batch| ==> Dispatch.VisibleTo(owner, batch[i])
  }

  predicate PullAcceptable(owner: string, conversationId: string, batch: seq<ChatMessage>) {
    AllVisible(owner, batch) && RangeAcceptable(conversationId, batch)
  }

  ghost function PullStep(s: Session, conversationId: string, reply: Result<seq<ChatMessage>>)
    : (Session, Result<seq<ChatMessage>>)
    requires Lifecycle(s)
  {
    if !s.state.LoggedIn? || conversationId == "" then (s, Err(Args))
    else if reply.Err? || reply.value == [] then (s, reply)
    else
      var owner, batch := s.login.value, reply.value;
      if !PullAcceptable(owner, conversationId, batch) then (s, Err(Args)) else
      Dispatch.ValidRoutable(owner, batch);
      var stored := WithMessages(s, ScopeSync.SyncedMap(s.domains.messages, MessageKey, KeysUnder(conversationId), batch,
                                              SyncDiff.OVERLAY_OPTIONS));
      (Folded(stored, owner, batch, [NewMessages(batch)]), reply)
  }

  predicate Receivable(owner: string, m: ChatMessage) {
    Dispatch.VisibleTo(owner, m) && ValidMessage(m)
  }

  /** How many messages of a push are taken before the first that cannot be. */
  function AcceptedCount(owner: string, batch: seq<ChatMessage>): (n: nat)
    ensures n <= |batch|
    ensures forall i :: 0 <= i < n ==> Receivable(owner, batch[i])
    ensures n < |batch| ==> !Receivable(owner, batch[n])
  {
    if batch == [] then 0 else
    var k := |batch| - 1;
    var n := AcceptedCount(owner, batch[..k]);
    if n == k && Receivable(owner, batch[k]) then k + 1 else n
  }

  lemma AcceptedCountIs(owner: string, batch: seq<ChatMessage>, n: nat)
    requires n <= |batch|
    requires forall i :: 0 <= i < n ==> Receivable(owner, batch[i])
    requires n < |batch| ==> !Receivable(owner, batch[n])
    ensures AcceptedCount(owner, batch) == n
  {
  }

  function ReceivedAll(batch: seq<ChatMessage>): (received: seq<ChatMessage>)
    ensures |received| == |batch| && forall i :: 0 <= i < |batch| ==> received[i] == Received(batch[i])
  {
    seq(|batch|, i requires 0 <= i < |batch| => Received(batch[i]))
  }

  function StoreAll(messages: map<(string, string), ChatMessage>, batch: seq<ChatMessage>)
    : map<(string, string), ChatMessage>
  {
    if batch == [] then messages else
    var m := batch[|batch| - 1];
    StoreAll(messages, batch[..|batch| - 1])[MessageKey(m) := Received(m)]
  }

  lemma ReceivedRoutable(owner: string, batch: seq<ChatMessage>)
    requires owner != "" && AcceptedCount(owner, batch) == |batch|
    ensures ConversationFold.AllRoutable(owner, ReceivedAll(batch))
    ensures forall i :: 0 <= i < |batch| ==> ReceivedAll(batch)[i].conversationId != ""
  {
    var received := ReceivedAll(batch);
    forall i | 0 <= i < |batch| ensures ValidMessage(received[i]) {
      assert Receivable(owner, batch[i]);
    }
    Dispatch.ValidRoutable(owner, received);
  }

  /** Pushed messages are stored one by one; a bad one stops the batch where it is. */
  ghost function ReceiveStep(s: Session, pushed: Result<seq<ChatMessage>>): (Session, Result<seq<ChatMessage>>)
    requires Lifecycle(s)
  {
    if !s.state.LoggedIn? then (s, Err(Args))
    else if pushed.Err? || pushed.value == [] then (s, pushed)
    else
      var owner, batch := s.login.value, pushed.value;
      var n := AcceptedCount(owner, batch);
      var stored := WithMessages(s, StoreAll(s.domains.messages, batch[..n]));
      if n < |batch| then (stored, Err(Args)) else
      ReceivedRoutable(owner, batch);
      (Folded(stored, owner, ReceivedAll(batch), [NewMessages(ReceivedAll(batch))]), Ok(ReceivedAll(batch)))
  }

  // ----- any call -----

  /** A call with everything the outside answers to it.  `Edit` is a caller working on the
      domain services directly, which keeps each entry under its own key. */
  datatype Call =
    | Init(initAnswer: Result<Unit>)
    | Login(credentials: LoginCredentials, answers: LoginAnswers)
    | Logout(logoutAnswer: Result<Unit>, logoutCloses: Closes)
    | Uninit(uninitAnswer: Result<Unit>, uninitCloses: Closes)
    | StartTask(startName: string)
    | StopTask(stopName: string)
    | DispatchNewMessages(messages: seq<ChatMessage>)
    | DispatchNewConversations(created: seq<Conversation.ConversationInfo>)
    | DispatchConversationChanged(changed: seq<Conversation.ConversationInfo>)
    | DispatchTotalUnread(total: u32)
    | Send(message: ChatMessage, sendReply: Result<SendMessageAck>)
    | Pull(conversationId: string, pullReply: Result<seq<ChatMessage>>)
    | Receive(pushed: Result<seq<ChatMessage>>)
    | Edit(domains: Domains)

  ghost function Next(config: SessionConfig, s: Session, call: Call): Session
    requires Lifecycle(s)
  {
    match call
    case Init(answer) => InitStep(s, answer).0
    case Login(c, answers) => LoginStep(config, s, c, answers).0
    case Logout(answer, closes) => LogoutStep(s, answer, closes).0
    case Uninit(answer, closes) => UninitStep(s, answer, closes).0
    case StartTask(name) => StartTaskStep(s, name).0
    case StopTask(name) => StopTaskStep(s, name).0
    case DispatchNewMessages(messages) => DispatchStep(s, if messages == [] then [] else [NewMessages(messages)]).0
    case DispatchNewConversations(created) => DispatchStep(s, ConversationEvents(Dispatch.DispatchBatch(created, [], None))).0
    case DispatchConversationChanged(changed) => DispatchStep(s, ConversationEvents(Dispatch.DispatchBatch([], changed, None))).0
    case DispatchTotalUnread(total) => DispatchStep(s, [TotalUnreadCountChanged(total)]).0
    case Send(m, reply) => SendStep(s, m, reply).0
    case Pull(id, reply) => PullStep(s, id, reply).0
    case Receive(pushed) => ReceiveStep(s, pushed).0
    case Edit(domains) => if s.state.LoggedIn? && DomainsKeyed(domains) then s.(domains := domains) else s
  }
}
