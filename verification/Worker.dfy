/** The transport worker thread and the session thread, joined by two channels.

    The system is a state machine: each step belongs to the worker or to the session, the
    steps interleave freely, and the network decides how receiving and connecting turn out. */
module Worker {
  import opened Common
  import opened Transport
  import Backoff

  const MAX_ATTEMPTS: nat := Backoff.DEFAULT_POLICY.maxAttempts as nat

  datatype Pc =
    | AtCheck
    | AtRecv
    | Reconnecting(attempt: nat)
    | Closing
    | Stopped(result: Result<Unit>)

  /** `queue` is the event channel, `signal` the message in the shutdown channel; `received`
      and `drained` record what the worker read and what the session took. */
  datatype System = System(
    pc: Pc, signal: bool, shutdown: bool, joined: bool,
    queue: seq<TransportEvent>, received: seq<TransportEvent>, drained: seq<TransportEvent>,
    recvsAfter: nat, connectsAfter: nat, stepsAfter: nat)

  datatype RecvOutcome = Got(event: TransportEvent) | RecvFailed | PollTimeout

  datatype ConnectResult = Refused | HandshakeFailed | Established

  datatype Step =
    | Check
    | Receive(recv: RecvOutcome)
    | Connect(connect: ConnectResult)
    | CloseSocket(closed: Result<Unit>)
    | TryRecv
    | SendShutdown
    | Join

  const START := System(AtCheck, false, false, false, [], [], [], 0, 0, 0)

  predicate IsWorkerStep(step: Step) {
    step.Check? || step.Receive? || step.Connect? || step.CloseSocket?
  }

  predicate Enabled(s: System, step: Step) {
    match step
    case Check => s.pc.AtCheck?
    case Receive(_) => s.pc.AtRecv?
    case Connect(_) => s.pc.Reconnecting?
    case CloseSocket(_) => s.pc.Closing?
    case TryRecv => s.queue != []
    case SendShutdown => !s.shutdown
    case Join => s.shutdown && s.pc.Stopped? && !s.joined
  }

  predicate IsHeartbeat(event: TransportEvent) {
    event.HeartbeatPing? || event.HeartbeatPong?
  }

  predicate IsForSession(event: TransportEvent) {
    !IsHeartbeat(event)
  }

  /** Reading one event: disconnection is reported and starts a reconnection, heartbeats are
      dropped, everything else is reported. */
  function Read(s: System, event: TransportEvent): System {
    var seen := s.(received := s.received + [event]);
    if event.Disconnected? then seen.(queue := s.queue + [event], pc := Reconnecting(1))
    else if IsHeartbeat(event) then seen.(pc := AtCheck)
    else seen.(queue := s.queue + [event], pc := AtCheck)
  }

  function WorkerMoves(s: System, step: Step): System
    requires Enabled(s, step) && IsWorkerStep(step)
  {
    match step
    case Check => if s.signal then s.(pc := Closing, signal := false) else s.(pc := AtRecv)
    case Receive(Got(event)) => Read(s, event)
    case Receive(RecvFailed) => s.(pc := Stopped(Err(SdkInternal)))
    case Receive(PollTimeout) => s.(pc := AtCheck)
    case Connect(Established) => s.(pc := AtCheck)
    case Connect(HandshakeFailed) => s.(pc := Stopped(Err(Network)))
    case Connect(Refused) =>
      if s.pc.attempt >= MAX_ATTEMPTS then s.(pc := Stopped(Err(Network)))
      else s.(pc := Reconnecting(s.pc.attempt + 1))
    case CloseSocket(closed) => s.(pc := Stopped(closed))
  }

  function Next(s: System, step: Step): System
    requires Enabled(s, step)
  {
    if IsWorkerStep(step) then
      var moved := WorkerMoves(s, step);
      if s.shutdown then
        moved.(stepsAfter := s.stepsAfter + 1,
               recvsAfter := s.recvsAfter + (if step.Receive? then 1 else 0),
               connectsAfter := s.connectsAfter + (if step.Connect? then 1 else 0))
      else moved
    else match step
      case TryRecv => s.(drained := s.drained + [s.queue[0]], queue := s.queue[1..])
      case SendShutdown => s.(shutdown := true, signal := true)
      case Join => s.(joined := true)
  }

  /** The steps can be taken one after the other from the start. */
  predicate IsRun(steps: seq<Step>)
    decreases |steps|, 0
  {
    steps == [] || (IsRun(steps[..|steps| - 1]) && Enabled(After(steps[..|steps| - 1]), steps[|steps| - 1]))
  }

  function After(steps: seq<Step>): System
    requires IsRun(steps)
    decreases |steps|, 1
  {
    if steps == [] then START else Next(After(steps[..|steps| - 1]), steps[|steps| - 1])
  }

  // ----- no event is lost, invented or reordered -----

  ghost predicate NothingLost(s: System) {
    s.drained + s.queue == Filter(s.received, IsForSession)
  }

  lemma ReadLosesNothing(s: System, event: TransportEvent)
    requires NothingLost(s)
    ensures NothingLost(Read(s, event))
  {
    FilterSnoc(s.received, event, IsForSession);
    var kept := Filter(s.received, IsForSession);
    assert kept + [] == kept;
    assert s.drained + (s.queue + [event]) == (s.drained + s.queue) + [event];
  }

  /** The steps that touch neither channel nor record. */
  lemma SilentStep(s: System, step: Step)
    requires Enabled(s, step) && !step.TryRecv? && !(step.Receive? && step.recv.Got?)
    ensures Next(s, step).drained == s.drained && Next(s, step).queue == s.queue && Next(s, step).received == s.received
  {
  }

  lemma NextLosesNothing(s: System, step: Step)
    requires Enabled(s, step) && NothingLost(s)
    ensures NothingLost(Next(s, step))
  {
    if step.Receive? && step.recv.Got? {
      ReadLosesNothing(s, step.recv.event);
    } else if step.TryRecv? {
      assert (s.drained + [s.queue[0]]) + s.queue[1..] == s.drained + s.queue;
    } else {
      SilentStep(s, step);
    }
  }

  /** In every interleaving, what the session took followed by what is in the channel is
      what the worker received, heartbeats aside, in order. */
  lemma {:induction false} ChannelIsFaithful(steps: seq<Step>)
    requires IsRun(steps)
    ensures NothingLost(After(steps))
  {
    if steps != [] {
      ChannelIsFaithful(steps[..|steps| - 1]);
      NextLosesNothing(After(steps[..|steps| - 1]), steps[|steps| - 1]);
    }
  }

  // ----- shutdown ends the worker -----

  /** Worker steps left once shutdown was asked for. */
  function Rank(pc: Pc): nat {
    match pc
    case Stopped(_) => 0
    case Closing => 1
    case AtCheck => 2
    case Reconnecting(k) => if k > MAX_ATTEMPTS then 3 else MAX_ATTEMPTS - k + 3
    case AtRecv => MAX_ATTEMPTS + 3
  }

  /** After shutdown was asked for, the signal is seen at the next check, so at most one more
      receive and one reconnection loop happen. */
  ghost predicate ShuttingDown(s: System) {
    && (s.pc.Reconnecting? ==> 1 <= s.pc.attempt <= MAX_ATTEMPTS)
    && (!s.shutdown ==> s.recvsAfter == s.connectsAfter == s.stepsAfter == 0 && !s.joined && !s.signal && !s.pc.Closing?)
    && (s.shutdown ==>
          && (s.signal || s.pc.Closing? || s.pc.Stopped?)
          && s.stepsAfter + Rank(s.pc) <= MAX_ATTEMPTS + 3
          && s.recvsAfter + (if s.pc.AtRecv? then 1 else 0) <= 1
          && s.connectsAfter + (match s.pc
                                case AtRecv => MAX_ATTEMPTS
                                case Reconnecting(k) => MAX_ATTEMPTS - k + 1
                                case _ => 0) <= MAX_ATTEMPTS)
    && (s.joined ==> s.pc.Stopped?)
  }

  lemma NextKeepsShuttingDown(s: System, step: Step)
    requires Enabled(s, step) && ShuttingDown(s)
    ensures ShuttingDown(Next(s, step))
  {
  }

  /** In every interleaving: once shutdown is asked for, the worker receives at most once more
      and connects at most as often as one reconnection loop may, and takes a bounded number
      of steps; when it has taken them it has stopped. */
  lemma {:induction false} ShutdownIsBounded(steps: seq<Step>)
    requires IsRun(steps)
    ensures ShuttingDown(After(steps))
    ensures var s := After(steps);
      s.shutdown ==>
        && s.recvsAfter <= 1 && s.connectsAfter <= MAX_ATTEMPTS && s.stepsAfter <= MAX_ATTEMPTS + 3
        && (s.stepsAfter == MAX_ATTEMPTS + 3 ==> s.pc.Stopped?)
  {
    if steps != [] {
      ShutdownIsBounded(steps[..|steps| - 1]);
      NextKeepsShuttingDown(After(steps[..|steps| - 1]), steps[|steps| - 1]);
    }
  }

  lemma WorkerStepDescends(s: System, step: Step)
    requires ShuttingDown(s) && s.shutdown && IsWorkerStep(step) && Enabled(s, step)
    ensures Rank(Next(s, step).pc) < Rank(s.pc)
  {
  }

  lemma CanMove(s: System) returns (step: Step)
    requires !s.pc.Stopped?
    ensures IsWorkerStep(step) && Enabled(s, step)
  {
    step := match s.pc
      case AtCheck => Check
      case AtRecv => Receive(PollTimeout)
      case Reconnecting(_) => Connect(ConnectResult.Refused)
      case _ => CloseSocket(Ok(Unit));
  }

  /** Until it has stopped the worker can always move, and once it has, the join can. */
  lemma JoinReturns(steps: seq<Step>)
    requires IsRun(steps) && After(steps).shutdown && !After(steps).joined
    ensures var s := After(steps);
      if s.pc.Stopped? then Enabled(s, Join)
      else exists step :: IsWorkerStep(step) && Enabled(s, step) && Rank(Next(s, step).pc) < Rank(s.pc)
    ensures var s := After(steps);
      forall step :: IsWorkerStep(step) && Enabled(s, step) ==> Rank(Next(s, step).pc) < Rank(s.pc)
  {
    ShutdownIsBounded(steps);
    var s := After(steps);
    forall step | IsWorkerStep(step) && Enabled(s, step) ensures Rank(Next(s, step).pc) < Rank(s.pc) {
      WorkerStepDescends(s, step);
    }
    if !s.pc.Stopped? {
      var step := CanMove(s);
    }
  }

  // ----- until then the worker keeps going -----

  /** A worker step that ends the worker without its having been asked to stop. */
  predicate Fatal(s: System, step: Step) {
    || step == Receive(RecvFailed)
    || step == Connect(HandshakeFailed)
    || (step == Connect(Refused) && s.pc.Reconnecting? && s.pc.attempt >= MAX_ATTEMPTS)
  }

  /** What each outcome makes of the worker: nothing to read, or an event that is not a
      disconnection, leads round the loop; a disconnection leads to connecting again, and that
      to the loop as soon as it succeeds, or to the next attempt while there are some. */
  lemma WorkerGoesRound(s: System, step: Step)
    requires Enabled(s, step) && IsWorkerStep(step)
    ensures step.Check? ==> Next(s, step).pc == if s.signal then Closing else AtRecv
    ensures step == Receive(PollTimeout) ==> Next(s, step).pc == AtCheck
    ensures step.Receive? && step.recv.Got? ==>
      Next(s, step).pc == if step.recv.event.Disconnected? then Reconnecting(1) else AtCheck
    ensures step == Connect(Established) ==> Next(s, step).pc == AtCheck
    ensures step == Connect(Refused) && !Fatal(s, step) ==> Next(s, step).pc == Reconnecting(s.pc.attempt + 1)
    ensures step.CloseSocket? ==> Next(s, step).pc == Stopped(step.closed)
    ensures Fatal(s, step) ==> Next(s, step).pc.Stopped? && Next(s, step).pc.result.Err?
  {
  }

  /** No step so far was fatal to the worker. */
  predicate Unharmed(steps: seq<Step>)
    requires IsRun(steps)
  {
    steps != [] ==>
      var n := |steps| - 1;
      Unharmed(steps[..n]) && !Fatal(After(steps[..n]), steps[n])
  }

  /** In every interleaving: as long as no shutdown was asked for and nothing fatal happened,
      the worker is at a check, a receive or a connect. */
  lemma {:induction false} UnharmedKeepsGoing(steps: seq<Step>)
    requires IsRun(steps) && Unharmed(steps) && !After(steps).shutdown
    ensures var s := After(steps);
      (s.pc.AtCheck? || s.pc.AtRecv? || s.pc.Reconnecting?) && !s.signal
  {
    if steps != [] {
      var n := |steps| - 1;
      UnharmedKeepsGoing(steps[..n]);
      if IsWorkerStep(steps[n]) {
        WorkerGoesRound(After(steps[..n]), steps[n]);
      }
    }
  }

  /** What ended a worker that nobody asked to stop. */
  lemma StoppedByStep(s: System, step: Step)
    requires Enabled(s, step) && ShuttingDown(s) && !Next(s, step).shutdown && Next(s, step).pc.Stopped?
    ensures if IsWorkerStep(step) then Fatal(s, step) && Next(s, step).pc.result.Err? else Next(s, step).pc == s.pc && !s.shutdown
  {
  }

  /** Place `i` is that of the last step the worker took. */
  predicate LastWorkerStep(steps: seq<Step>, i: nat) {
    i < |steps| && IsWorkerStep(steps[i]) && forall j :: i < j < |steps| ==> !IsWorkerStep(steps[j])
  }

  lemma LastWorkerStepSnoc(steps: seq<Step>, i: nat)
    requires steps != [] && !IsWorkerStep(steps[|steps| - 1]) && LastWorkerStep(steps[..|steps| - 1], i)
    ensures LastWorkerStep(steps, i) && steps[..|steps| - 1][..i] == steps[..i]
  {
    assert forall j :: i < j < |steps| - 1 ==> steps[j] == steps[..|steps| - 1][j];
  }

  /** And if it has stopped without a shutdown, its last step was a failed receive, a failed
      handshake, or the last allowed refused connect, and its result is an error. */
  lemma {:induction false} StopsOnlyWhenHarmed(steps: seq<Step>) returns (i: nat)
    requires IsRun(steps) && !After(steps).shutdown && After(steps).pc.Stopped?
    ensures LastWorkerStep(steps, i) && IsRun(steps[..i]) && Fatal(After(steps[..i]), steps[i])
    ensures After(steps).pc.result.Err?
  {
    var n := |steps| - 1;
    ShutdownIsBounded(steps[..n]);
    StoppedByStep(After(steps[..n]), steps[n]);
    if IsWorkerStep(steps[n]) {
      i := n;
    } else {
      i := StopsOnlyWhenHarmed(steps[..n]);
      LastWorkerStepSnoc(steps, i);
    }
  }

  function WorkerOnly(steps: seq<Step>): seq<Step> {
    Filter(steps, IsWorkerStep)
  }

  /** `k` attempts of one reconnect loop: a disconnection, then `k - 1` refused connects. */
  predicate LoopSince(taken: seq<Step>, k: nat) {
    && 1 <= k <= |taken|
    && (var first := taken[|taken| - k];
        first.Receive? && first.recv.Got? && first.recv.event.Disconnected?)
    && forall j :: |taken| - k < j < |taken| ==> taken[j] == Connect(Refused)
  }

  lemma LoopGrows(taken: seq<Step>, k: nat)
    requires LoopSince(taken, k)
    ensures LoopSince(taken + [Connect(ConnectResult.Refused)], k + 1)
  {
  }

  lemma LoopBegins(taken: seq<Step>, event: TransportEvent)
    requires event.Disconnected?
    ensures LoopSince(taken + [Receive(Got(event))], 1)
  {
  }

  /** How a step can leave the worker connecting. */
  lemma HowReconnecting(s: System, step: Step)
    requires Enabled(s, step) && IsWorkerStep(step) && Next(s, step).pc.Reconnecting?
    ensures if step.Connect? then
        step == Connect(Refused) && s.pc.Reconnecting? && Next(s, step).pc.attempt == s.pc.attempt + 1
      else
        step.Receive? && step.recv.Got? && step.recv.event.Disconnected? && Next(s, step).pc.attempt == 1
  {
  }

  /** The attempt the worker is at counts the refused connects since the disconnection, so the
      last allowed one is the fifth in a row. */
  lemma {:induction false} AttemptsCount(steps: seq<Step>)
    requires IsRun(steps) && After(steps).pc.Reconnecting?
    ensures LoopSince(WorkerOnly(steps), After(steps).pc.attempt)
  {
    var before, step := steps[..|steps| - 1], steps[|steps| - 1];
    FilterSnoc(before, step, IsWorkerStep);
    assert before + [step] == steps;
    if !IsWorkerStep(step) {
      AttemptsCount(before);
    } else {
      HowReconnecting(After(before), step);
      if step.Connect? {
        AttemptsCount(before);
        LoopGrows(WorkerOnly(before), After(before).pc.attempt);
      } else {
        LoopBegins(WorkerOnly(before), step.recv.event);
      }
    }
  }

  /** Every event the worker received that is no heartbeat was drained or is in the channel,
      and nothing else is. */
  lemma ReceivedReaches(steps: seq<Step>, event: TransportEvent)
    requires IsRun(steps)
    ensures var s := After(steps);
      event in s.drained + s.queue <==> event in s.received && event != HeartbeatPing && event != HeartbeatPong
  {
    ChannelIsFaithful(steps);
    FilterMembers(After(steps).received, IsForSession);
  }

  function CountOf(steps: seq<Step>, step: Step): nat {
    if steps == [] then 0 else CountOf(steps[..|steps| - 1], step) + (if steps[|steps| - 1] == step then 1 else 0)
  }

  /** In every interleaving the shutdown is sent once at most, and the thread joined once. */
  lemma {:induction false} SentAndJoinedOnce(steps: seq<Step>)
    requires IsRun(steps)
    ensures CountOf(steps, SendShutdown) == if After(steps).shutdown then 1 else 0
    ensures CountOf(steps, Join) == if After(steps).joined then 1 else 0
  {
    if steps != [] {
      SentAndJoinedOnce(steps[..|steps| - 1]);
    }
  }

  lemma RunSnoc(steps: seq<Step>, step: Step)
    requires IsRun(steps) && Enabled(After(steps), step)
    ensures IsRun(steps + [step]) && After(steps + [step]) == Next(After(steps), step)
  {
    assert (steps + [step])[..|steps|] == steps;
  }

  // ----- the session's side -----

  /** What the network decides next for a worker that has been asked to stop. */
  ghost predicate Decides(choice: System -> Step) {
    forall s: System :: s.shutdown && !s.pc.Stopped? ==> IsWorkerStep(choice(s)) && Enabled(s, choice(s))
  }

  /** `world` is what the resource shares with the worker thread: the channels and the thread
      itself.  `steps` are the steps taken so far by either side. */
  class NativeTransportTaskResource {
    var shutdownTx: bool
    var joinHandle: bool
    var world: System
    ghost var steps: seq<Step>

    ghost predicate Valid()
      reads this
    {
      && IsRun(steps) && world == After(steps)
      && shutdownTx == !world.shutdown && joinHandle == !world.joined
    }

    constructor ()
      ensures Valid() && world == START
    {
      shutdownTx, joinHandle, world := true, true, START;
      steps := [];
    }

    /** One step of either side. */
    method Take(step: Step)
      requires Valid() && Enabled(world, step) && !step.SendShutdown? && !step.Join?
      modifies this`world, this`steps
      ensures Valid() && world == Next(old(world), step) && steps == old(steps) + [step]
    {
      RunSnoc(steps, step);
      world := Next(world, step);
      steps := steps + [step];
    }

    /** The worker takes the proposed steps it can take, while the session is elsewhere. */
    method WorkerRuns(proposed: seq<Step>)
      requires Valid()
      modifies this`world, this`steps
      ensures Valid() && old(steps) <= steps
      ensures world.drained == old(world.drained) && shutdownTx == old(shutdownTx) && joinHandle == old(joinHandle)
    {
      for i := 0 to |proposed|
        invariant Valid() && old(steps) <= steps
        invariant world.drained == old(world.drained) && shutdownTx == old(shutdownTx) && joinHandle == old(joinHandle)
      {
        if IsWorkerStep(proposed[i]) && Enabled(world, proposed[i]) {
          Take(proposed[i]);
        }
      }
    }

    /** Takes events out of the channel until it is found empty; before each look the worker
        may run on.  Afterwards the session has had, over all drains, exactly what the worker
        received for it, in order. */
    method DrainTransportEvents(meanwhile: seq<seq<Step>>) returns (events: seq<TransportEvent>)
      requires Valid()
      modifies this`world, this`steps
      ensures Valid() && old(steps) <= steps
      ensures world.drained == old(world.drained) + events && world.queue == []
      ensures world.drained == Filter(world.received, IsForSession)
      ensures shutdownTx == old(shutdownTx) && joinHandle == old(joinHandle)
    {
      events := [];
      var looks := 0;
      if meanwhile != [] {
        WorkerRuns(meanwhile[0]);
      }
      while world.queue != []
        invariant Valid() && old(steps) <= steps
        invariant world.drained == old(world.drained) + events
        invariant shutdownTx == old(shutdownTx) && joinHandle == old(joinHandle)
        decreases if looks < |meanwhile| then |meanwhile| - looks else 0, |world.queue|
      {
        events := events + [world.queue[0]];
        Take(TryRecv);
        looks := looks + 1;
        if looks < |meanwhile| {
          WorkerRuns(meanwhile[looks]);
        }
      }
      ChannelIsFaithful(steps);
      assert world.drained + [] == world.drained;
    }

    /** Asks the worker to stop, once, and joins it, once.  Whatever the network decides in the
        meantime, the worker stops and the join returns what it stopped with. */
    method Close(choice: System -> Step) returns (r: Result<Unit>)
      requires Valid() && Decides(choice)
      modifies this
      ensures Valid() && !shutdownTx && !joinHandle && old(steps) <= steps
      ensures world.drained == old(world.drained)
      ensures if old(joinHandle) then world.pc.Stopped? && r == world.pc.result else r == Ok(Unit) && world == old(world)
      ensures CountOf(steps, SendShutdown) == CountOf(steps, Join) == 1
    {
      SentAndJoinedOnce(steps);
      ShutdownIsBounded(steps);
      if shutdownTx {
        RunSnoc(steps, SendShutdown);
        shutdownTx, world := false, Next(world, SendShutdown);
        steps := steps + [SendShutdown];
      }
      if !joinHandle {
        return Ok(Unit);
      }
      Stop(choice);
      RunSnoc(steps, Join);
      joinHandle, world := false, Next(world, Join);
      steps := steps + [Join];
      SentAndJoinedOnce(steps);
      return world.pc.result;
    }

    /** The join waits for the worker to stop, which the rank of its place bounds. */
    method Stop(choice: System -> Step)
      requires Valid() && world.shutdown && Decides(choice)
      modifies this`world, this`steps
      ensures Valid() && world.pc.Stopped? && old(steps) <= steps
      ensures world.shutdown && world.joined == old(world.joined) && world.drained == old(world.drained)
    {
      while !world.pc.Stopped?
        invariant Valid() && old(steps) <= steps
        invariant world.shutdown && world.joined == old(world.joined) && world.drained == old(world.drained)
        decreases Rank(world.pc)
      {
        var step := choice(world);
        ShutdownIsBounded(steps);
        WorkerStepDescends(world, step);
        Take(step);
      }
    }
  }
}
