/** The handles of resources over whole runs: which of those the adapter offered are closed in
    the end, and which closings listeners hear of. */
module SessionHandles {
  import opened Common
  import Tasks
  import opened SessionResources
  import opened SessionEvents
  import opened SessionSteps
  import opened SessionRuns

  // ----- what the adapter offered -----

  /** The login got as far as the adapter, and the adapter answered with resources. */
  predicate AdapterAnswered(config: SessionConfig, s: Session, c: LoginCredentials, answers: LoginAnswers) {
    && ValidCredentials(c) && (s.state.Initialized? || s.state.LoggedOut?)
    && StorageFor(config, c, answers.dbFile).Ok? && answers.adapter.Ok?
  }

  /** The handles an adapter's answer offers to the session in this call. */
  function OfferedBy(config: SessionConfig, s: Session, call: Call): seq<nat> {
    if call.Login? && AdapterAnswered(config, s, call.credentials, call.answers)
    then Handles(call.answers.adapter.value.resources) else []
  }

  /** The handles of an answer that the session turns down. */
  function RefusedBy(config: SessionConfig, s: Session, call: Call): seq<nat> {
    if call.Login? && AdmittedRuntime(config, s, call.credentials, call.answers).Err?
    then OfferedBy(config, s, call) else []
  }

  ghost function Offered(config: SessionConfig, calls: seq<Call>): seq<nat> {
    if calls == [] then [] else
    var n := |calls| - 1;
    Offered(config, calls[..n]) + OfferedBy(config, Run(config, calls[..n]), calls[n])
  }

  ghost function TurnedDown(config: SessionConfig, calls: seq<Call>): seq<nat> {
    if calls == [] then [] else
    var n := |calls| - 1;
    TurnedDown(config, calls[..n]) + RefusedBy(config, Run(config, calls[..n]), calls[n])
  }

  /** Every login whose adapter answered was admitted, or the answer held no resources. */
  ghost predicate NothingTurnedDown(config: SessionConfig, calls: seq<Call>) {
    calls != [] ==>
      var n := |calls| - 1;
      NothingTurnedDown(config, calls[..n]) && RefusedBy(config, Run(config, calls[..n]), calls[n]) == []
  }

  /** Only logging in and closing touch the resources. */
  lemma OtherCallsKeepResources(config: SessionConfig, s: Session, call: Call)
    requires Lifecycle(s) && !call.Login? && !call.Logout? && !call.Uninit?
    ensures Next(config, s, call).runtime == s.runtime && Next(config, s, call).acquired == s.acquired
    ensures Next(config, s, call).closed == s.closed
  {
  }

  lemma EndKeepsAcquired(s: Session, answer: Result<Unit>, closes: Closes, state: SessionState, last: SessionEvent)
    ensures EndStep(s, answer, closes, state, last).0.acquired == s.acquired
  {
  }

  /** What a call adds to the acquired handles is what was offered and not turned down. */
  lemma AcquiredStep(config: SessionConfig, s: Session, call: Call)
    requires Lifecycle(s)
    ensures multiset(Next(config, s, call).acquired) + multiset(RefusedBy(config, s, call))
         == multiset(s.acquired) + multiset(OfferedBy(config, s, call))
  {
    match call {
      case Login(c, answers) => LoginAcquires(config, s, c, answers);
      case Logout(answer, closes) =>
        if s.login.Some? {
          EndKeepsAcquired(s, answer, closes, SessionState.LoggedOut, SessionEvent.LoggedOut(s.login.value));
        }
      case Uninit(answer, closes) =>
        EndKeepsAcquired(s, answer, closes, SessionState.Uninitialized, SessionEvent.Uninitialized);
      case _ => OtherCallsKeepResources(config, s, call);
    }
  }

  lemma LoginAcquires(config: SessionConfig, s: Session, c: LoginCredentials, answers: LoginAnswers)
    ensures var call := Login(c, answers);
      multiset(LoginStep(config, s, c, answers).0.acquired) + multiset(RefusedBy(config, s, call))
      == multiset(s.acquired) + multiset(OfferedBy(config, s, call))
  {
    var admitted := AdmittedRuntime(config, s, c, answers);
    if admitted.Ok? {
      assert LoginStep(config, s, c, answers).0.acquired == s.acquired + Handles(admitted.value.resources);
    }
  }

  /** Over any run every handle offered was acquired or turned down. */
  lemma {:induction false} OfferedSplits(config: SessionConfig, calls: seq<Call>)
    ensures multiset(Run(config, calls).acquired) + multiset(TurnedDown(config, calls)) == multiset(Offered(config, calls))
  {
    if calls != [] {
      var n := |calls| - 1;
      OfferedSplits(config, calls[..n]);
      AcquiredStep(config, Run(config, calls[..n]), calls[n]);
      SplitsStep(Run(config, calls[..n]).acquired, Run(config, calls).acquired,
                 TurnedDown(config, calls[..n]), RefusedBy(config, Run(config, calls[..n]), calls[n]),
                 Offered(config, calls[..n]), OfferedBy(config, Run(config, calls[..n]), calls[n]));
    }
  }

  lemma SplitsStep(acquired: seq<nat>, now: seq<nat>, down: seq<nat>, more: seq<nat>, offered: seq<nat>, new_: seq<nat>)
    requires multiset(acquired) + multiset(down) == multiset(offered)
    requires multiset(now) + multiset(more) == multiset(acquired) + multiset(new_)
    ensures multiset(now) + multiset(down + more) == multiset(offered + new_)
  {
    forall h ensures multiset(now)[h] + multiset(down + more)[h] == multiset(offered + new_)[h] {
      assert (multiset(acquired) + multiset(down))[h] == multiset(offered)[h];
      assert (multiset(now) + multiset(more))[h] == (multiset(acquired) + multiset(new_))[h];
    }
    assert forall h :: (multiset(now) + multiset(down + more))[h] == multiset(offered + new_)[h];
  }

  lemma {:induction false} NothingTurnedDownIff(config: SessionConfig, calls: seq<Call>)
    ensures TurnedDown(config, calls) == [] <==> NothingTurnedDown(config, calls)
  {
    if calls != [] {
      NothingTurnedDownIff(config, calls[..|calls| - 1]);
    }
  }

  /** Whenever nobody is logged in, all handles the adapter ever offered have been closed if and
      only if every login whose adapter answered was admitted or its answer held none. */
  lemma OfferedClosedIff(config: SessionConfig, calls: seq<Call>)
    requires !Run(config, calls).state.LoggedIn?
    ensures multiset(Run(config, calls).closed) == multiset(Offered(config, calls)) <==> NothingTurnedDown(config, calls)
  {
    var s := Run(config, calls);
    OfferedSplits(config, calls);
    NothingTurnedDownIff(config, calls);
    assert OpenHandles(s) == [];
    assert multiset(s.closed) == multiset(s.acquired);
    NoneLeftIff(multiset(s.closed), TurnedDown(config, calls), multiset(Offered(config, calls)));
  }

  lemma NoneLeftIff(closed: multiset<nat>, down: seq<nat>, offered: multiset<nat>)
    requires closed + multiset(down) == offered
    ensures closed == offered <==> down == []
  {
    if down != [] {
      assert down[0] in multiset(down);
      assert offered[down[0]] > closed[down[0]];
    }
  }

  const SAMPLE_CONFIG := SessionConfig(false, 1, "ws", None)

  /** "u" logs in and the adapter answers with a socket of "other". */
  const MISMATCH: Call := Login(
    LoginCredentials("u", "token"),
    LoginAnswers("op", Err(Args), Ok(Runtime("other", TransportFor(SAMPLE_CONFIG, LoginCredentials("u", "token"), "op"),
                                             Unconfigured, [Resource(ResourceKind.Transport, "ws", 1)]))))

  /** The login is refused, and the socket that was offered is never closed. */
  lemma RefusedLoginExample()
    ensures var calls := [Init(Ok(Unit)), MISMATCH];
      var s := Run(SAMPLE_CONFIG, calls);
      && LoginStep(SAMPLE_CONFIG, Run(SAMPLE_CONFIG, calls[..1]), MISMATCH.credentials, MISMATCH.answers).1 == Err(SdkInternal)
      && !s.state.LoggedIn? && s.closed == [] && Offered(SAMPLE_CONFIG, calls) == [1]
  {
    var init: seq<Call> := [Init(Ok(Unit))];
    var calls := [Init(Ok(Unit)), MISMATCH];
    assert init[..0] == [] && calls[..1] == init;
    assert Run(SAMPLE_CONFIG, init) == InitStep(NEW_SESSION, Ok(Unit)).0;
    assert Offered(SAMPLE_CONFIG, init) == [];
    assert Handles([Resource(ResourceKind.Transport, "ws", 1)]) == [1];
  }

  // ----- which closings are told -----

  /** The call tries to close the resources. */
  predicate TriesToClose(s: Session, call: Call) {
    s.runtime.Some? && ((call.Logout? && call.logoutAnswer.Ok?) || (call.Uninit? && call.uninitAnswer.Ok?))
  }

  function ClosesOf(call: Call): Closes
    requires call.Logout? || call.Uninit?
  {
    if call.Logout? then call.logoutCloses else call.uninitCloses
  }

  /** Since the last login: the resources it brought, and the attempts to close them so far. */
  datatype Span = Span(brought: seq<Resource>, passes: seq<Closes>)

  ghost function SpanStep(config: SessionConfig, span: Span, s: Session, call: Call): Span {
    if call.Login? && AdmittedRuntime(config, s, call.credentials, call.answers).Ok? then
      Span(AdmittedRuntime(config, s, call.credentials, call.answers).value.resources, [])
    else if TriesToClose(s, call) then span.(passes := span.passes + [ClosesOf(call)])
    else span
  }

  ghost function SpanOf(config: SessionConfig, calls: seq<Call>): Span {
    if calls == [] then Span([], []) else
    var n := |calls| - 1;
    SpanStep(config, SpanOf(config, calls[..n]), Run(config, calls[..n]), calls[n])
  }

  /** What is open is what every attempt since the login refused, in the original order. */
  ghost predicate OpenIsRefused(span: Span, s: Session) {
    s.runtime.Some? ==> s.runtime.value.resources == Filter(span.brought, RefusedByAll(span.passes))
  }

  lemma RefusedOnceMore(resources: seq<Resource>, passes: seq<Closes>, closes: Closes)
    ensures Remaining(Filter(resources, RefusedByAll(passes)), closes) == Filter(resources, RefusedByAll(passes + [closes]))
  {
    assert (passes + [closes])[..|passes|] == passes;
    FilterTwice(resources, RefusedByAll(passes), Refusing(closes), RefusedByAll(passes + [closes]));
  }

  lemma EndLeavesRemaining(s: Session, closes: Closes, state: SessionState, last: SessionEvent)
    requires s.runtime.Some?
    ensures var after := EndStep(s, Ok(Unit), closes, state, last).0;
      after.runtime.Some? ==> after.runtime.value.resources == Remaining(s.runtime.value.resources, closes)
  {
  }

  lemma AttemptRefuses(span: Span, s: Session, closes: Closes, state: SessionState, last: SessionEvent)
    requires s.runtime.Some? && OpenIsRefused(span, s)
    ensures OpenIsRefused(span.(passes := span.passes + [closes]), EndStep(s, Ok(Unit), closes, state, last).0)
  {
    EndLeavesRemaining(s, closes, state, last);
    RefusedOnceMore(span.brought, span.passes, closes);
  }

  /** The event that ends a login by this call. */
  function EndOf(s: Session, call: Call): SessionEvent
    requires TriesToClose(s, call) && s.login.Some?
  {
    if call.Logout? then SessionEvent.LoggedOut(s.login.value) else SessionEvent.Uninitialized
  }

  lemma ClosingCall(config: SessionConfig, s: Session, call: Call)
    requires Lifecycle(s) && TriesToClose(s, call)
    ensures Next(config, s, call)
         == EndStep(s, Ok(Unit), ClosesOf(call), if call.Logout? then SessionState.LoggedOut else SessionState.Uninitialized,
                    EndOf(s, call)).0
  {
  }

  lemma IdleCall(config: SessionConfig, s: Session, call: Call)
    requires Lifecycle(s) && !TriesToClose(s, call)
    requires call.Login? ==> AdmittedRuntime(config, s, call.credentials, call.answers).Err?
    ensures Next(config, s, call).runtime == s.runtime
  {
    if !call.Login? && !call.Logout? && !call.Uninit? {
      OtherCallsKeepResources(config, s, call);
    }
  }

  lemma SpanStepKeeps(config: SessionConfig, span: Span, s: Session, call: Call)
    requires Lifecycle(s) && OpenIsRefused(span, s)
    ensures OpenIsRefused(SpanStep(config, span, s, call), Next(config, s, call))
  {
    if TriesToClose(s, call) {
      ClosingCall(config, s, call);
      AttemptRefuses(span, s, ClosesOf(call),
                     if call.Logout? then SessionState.LoggedOut else SessionState.Uninitialized, EndOf(s, call));
    } else if call.Login? && AdmittedRuntime(config, s, call.credentials, call.answers).Ok? {
      FilterEverything(AdmittedRuntime(config, s, call.credentials, call.answers).value.resources, RefusedByAll([]));
    } else {
      IdleCall(config, s, call);
    }
  }

  lemma {:induction false} SpanHolds(config: SessionConfig, calls: seq<Call>)
    ensures OpenIsRefused(SpanOf(config, calls), Run(config, calls))
  {
    if calls != [] {
      var n := |calls| - 1;
      SpanHolds(config, calls[..n]);
      SpanStepKeeps(config, SpanOf(config, calls[..n]), Run(config, calls[..n]), calls[n]);
    }
  }

  /** The events of a call that stops the tasks, closes these resources and ends the login. */
  function EndEvents(s: Session, closed: seq<Resource>, last: SessionEvent): seq<SessionEvent> {
    StoppedEvents(Tasks.RunningNames(s.tasks)) + ClosedEvents(closed) + [last]
  }

  lemma EndTells(s: Session, closes: Closes, state: SessionState, last: SessionEvent)
    requires s.runtime.Some? && Remaining(s.runtime.value.resources, closes) == []
    ensures EndStep(s, Ok(Unit), closes, state, last).0.events
         == s.events + EndEvents(s, Reverse(s.runtime.value.resources), last)
  {
    AllClosed(s.runtime.value.resources, closes);
    var stopped, closed := StoppedEvents(Tasks.RunningNames(s.tasks)), ClosedEvents(Reverse(s.runtime.value.resources));
    assert ((s.events + stopped) + closed) + [last] == s.events + (stopped + closed + [last]);
  }

  /** In any run, the logout or uninit that closes the last resources adds to the log the
      stopped tasks, the closing of exactly those resources of the login that every earlier
      attempt since had refused, newest first, and the end. */
  lemma EndTellsRefused(config: SessionConfig, calls: seq<Call>, call: Call)
    requires TriesToClose(Run(config, calls), call)
    requires Remaining(Run(config, calls).runtime.value.resources, ClosesOf(call)) == []
    ensures var s, span := Run(config, calls), SpanOf(config, calls);
      Next(config, s, call).events
        == s.events + EndEvents(s, Reverse(Filter(span.brought, RefusedByAll(span.passes))), EndOf(s, call))
  {
    var s := Run(config, calls);
    SpanHolds(config, calls);
    ClosingCall(config, s, call);
    EndTells(s, ClosesOf(call), if call.Logout? then SessionState.LoggedOut else SessionState.Uninitialized,
             EndOf(s, call));
  }

  lemma EndEventsAllIff(s: Session, resources: seq<Resource>, p: Resource -> bool, last: SessionEvent)
    ensures s.events + EndEvents(s, Reverse(Filter(resources, p)), last) == s.events + EndEvents(s, Reverse(resources), last)
      <==> forall i :: 0 <= i < |resources| ==> p(resources[i])
  {
    FilterShorter(resources, p);
    if forall i :: 0 <= i < |resources| ==> p(resources[i]) {
      FilterEverything(resources, p);
    } else {
      assert |s.events + EndEvents(s, Reverse(Filter(resources, p)), last)|
          != |s.events + EndEvents(s, Reverse(resources), last)|;
    }
  }

  /** So listeners hear of the closing of all that a login brought if and only if no earlier
      attempt since that login, by logout or uninit and whatever came in between, had closed
      any of it. */
  lemma EndTellsAllIff(config: SessionConfig, calls: seq<Call>, call: Call)
    requires TriesToClose(Run(config, calls), call)
    requires Remaining(Run(config, calls).runtime.value.resources, ClosesOf(call)) == []
    ensures var s, span := Run(config, calls), SpanOf(config, calls);
      Next(config, s, call).events == s.events + EndEvents(s, Reverse(span.brought), EndOf(s, call))
      <==> forall i :: 0 <= i < |span.brought| ==> Refused(span.passes, span.brought[i].handle)
  {
    var s, span := Run(config, calls), SpanOf(config, calls);
    EndTellsRefused(config, calls, call);
    EndEventsAllIff(s, span.brought, RefusedByAll(span.passes), EndOf(s, call));
    assert forall i :: 0 <= i < |span.brought| ==>
      (RefusedByAll(span.passes)(span.brought[i]) <==> Refused(span.passes, span.brought[i].handle));
  }
}
