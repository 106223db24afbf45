/** Making any call on a session object: what holds of all runs holds of the object. */
module SessionDriver {
  import opened SessionSteps
  import SessionRuns
  import ClientSession

  predicate AboutMessages(call: Call) {
    call.Send? || call.Pull? || call.Receive?
  }

  method PerformLifecycle(session: ClientSession.OpenImSession, call: Call)
    requires session.Valid() && SessionRuns.AboutLifecycle(call)
    modifies session.Objects()
    ensures session.Valid() && session.FreshParts()
    ensures session.Value() == Next(session.config, old(session.Value()), call)
  {
    match call {
      case Init(answer) => var _ := session.Init(answer);
      case Login(c, answers) => var _ := session.Login(c, answers);
      case Logout(answer, closes) => var _ := session.Logout(answer, closes);
      case Uninit(answer, closes) => var _ := session.Uninit(answer, closes);
      case StartTask(name) => var _ := session.StartTask(name);
      case StopTask(name) => var _ := session.StopTask(name);
      case _ =>
    }
  }

  method PerformMessages(session: ClientSession.OpenImSession, call: Call)
    requires session.Valid() && AboutMessages(call)
    modifies session`events, session.domains.messages, session.domains.conversations
    ensures session.Valid()
    ensures session.Value() == Next(session.config, old(session.Value()), call)
  {
    match call {
      case Send(m, reply) => var _ := session.SendMessage(m, reply);
      case Pull(id, reply) => var _ := session.PullMessages(id, reply);
      case Receive(pushed) => var _ := session.ReceiveTransportPushes(pushed);
      case _ =>
    }
  }

  method PerformDispatch(session: ClientSession.OpenImSession, call: Call)
    requires session.Valid() && !SessionRuns.AboutLifecycle(call) && !AboutMessages(call) && !call.Edit?
    modifies session`events
    ensures session.Valid()
    ensures session.Value() == Next(session.config, old(session.Value()), call)
  {
    match call {
      case DispatchNewMessages(messages) => var _ := session.DispatchNewMessages(messages);
      case DispatchNewConversations(created) => var _ := session.DispatchNewConversations(created);
      case DispatchConversationChanged(changed) => var _ := session.DispatchConversationChanged(changed);
      case DispatchTotalUnread(total) => var _ := session.DispatchTotalUnreadCountChanged(total);
      case _ =>
    }
  }

  method SetDomains(services: ClientSession.DomainServices, domains: Domains)
    requires DomainsKeyed(domains)
    modifies services.Objects()
    ensures services.Valid() && services.Value() == domains
  {
    services.messages.messages := domains.messages;
    services.conversations.conversations := domains.conversations;
    services.relations.friends := domains.friends;
    services.relations.blacklist := domains.blacklist;
    services.groups.groups := domains.groups;
    services.groups.members := domains.members;
  }

  /** A caller at work on the domain services, which it can reach only while logged in. */
  method EditDomains(session: ClientSession.OpenImSession, domains: Domains)
    requires session.Valid() && DomainsKeyed(domains)
    modifies session.domains.Objects()
    ensures session.Valid()
    ensures session.Value() == Next(session.config, old(session.Value()), Edit(domains))
  {
    if session.state.LoggedIn? {
      SetDomains(session.domains, domains);
    }
  }

  method PerformOther(session: ClientSession.OpenImSession, call: Call)
    requires session.Valid() && !SessionRuns.AboutLifecycle(call) && !AboutMessages(call)
    requires call.Edit? ==> DomainsKeyed(call.domains)
    modifies session`events, session.domains.Objects()
    ensures session.Valid()
    ensures session.Value() == Next(session.config, old(session.Value()), call)
  {
    if call.Edit? {
      EditDomains(session, call.domains);
    } else {
      PerformDispatch(session, call);
    }
  }

  method PerformStep(session: ClientSession.OpenImSession, call: Call)
    requires session.Valid() && (call.Edit? ==> DomainsKeyed(call.domains))
    modifies session.Objects()
    ensures session.Valid() && session.FreshParts()
    ensures session.Value() == Next(session.config, old(session.Value()), call)
  {
    if SessionRuns.AboutLifecycle(call) {
      PerformLifecycle(session, call);
    } else if AboutMessages(call) {
      PerformMessages(session, call);
    } else {
      PerformOther(session, call);
    }
  }

  /** Any call on the object is a step of the session, and keeps the invariant that the
      runs of steps keep. */
  method Perform(session: ClientSession.OpenImSession, call: Call)
    requires session.Valid() && (call.Edit? ==> DomainsKeyed(call.domains))
    requires SessionRuns.Inv(session.Value())
    modifies session.Objects()
    ensures session.Valid() && session.FreshParts()
    ensures session.Value() == Next(session.config, old(session.Value()), call)
    ensures SessionRuns.Inv(session.Value())
  {
    SessionRuns.NextKeeps(session.config, session.Value(), call);
    PerformStep(session, call);
  }
}
