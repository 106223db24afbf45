/** The websocket client: requests that wait for their response while everything else that
    arrives is buffered for later.

    The socket is a finite list of what happens on it, failures and timer expiries included;
    at its end the socket is closed.  `Link` is the client's state together with a record of
    what arrived, what was handed out, and which arrivals a waiting request took. */
module WsClient {
  import opened Common
  import opened Transport
  import opened Backoff

  datatype Input =
    | Binary(decoded: Option<Resp>)
    | Ping(pongSent: bool)
    | Pong
    | UnexpectedText
    | OtherFrame
    | FrameError
    | Close
    | Expires(now: nat)

  datatype Link = Link(
    pending: Entries, buffered: seq<TransportEvent>, inputs: seq<Input>,
    arrived: seq<TransportEvent>, handed: seq<TransportEvent>, answered: set<int>, sent: seq<string>)

  function Opened(inputs: seq<Input>): Link {
    Link(map[], [], inputs, [], [], {}, [])
  }

  datatype Received = Event(event: TransportEvent) | Failed | TimedOut(now: nat)

  /** The next event of the socket; `deadline` tells whether a timer is running. */
  function FromStream(l: Link, deadline: bool): (Link, Received)
    decreases |l.inputs|
  {
    if l.inputs == [] then (l, Event(Disconnected)) else
    var rest := l.(inputs := l.inputs[1..]);
    match l.inputs[0]
    case Binary(Some(resp)) =>
      var (event, pending) := Routed(resp, l.pending);
      (rest.(pending := pending, arrived := l.arrived + [event]), Event(event))
    case Binary(None) => (rest, Failed)
    case Ping(pongSent) => (rest, if pongSent then Event(HeartbeatPing) else Failed)
    case Pong => (rest, Event(HeartbeatPong))
    case UnexpectedText => (rest, Failed)
    case FrameError => (rest, Failed)
    case Close => (rest, Event(Disconnected))
    case OtherFrame => FromStream(rest, deadline)
    case Expires(now) => if deadline then (rest, TimedOut(now)) else FromStream(rest, deadline)
  }

  /** Handing an event to the caller. */
  function HandOut(l: Link, event: TransportEvent): Link {
    if event.CarriesResp() then l.(handed := l.handed + [event]) else l
  }

  /** The next event for the caller: a buffered one first. */
  function Next(l: Link, deadline: bool): (Link, Received) {
    if l.buffered != [] then
      (HandOut(l.(buffered := l.buffered[1..]), l.buffered[0]), Event(l.buffered[0]))
    else
      var (l1, received) := FromStream(l, deadline);
      (if received.Event? then HandOut(l1, received.event) else l1, received)
  }

  function Sent(l: Link, msgIncr: string, sendOk: bool, now: nat): (Link, Result<Unit>) {
    if !sendOk then (l, Err(Network))
    else (l.(pending := Registered(l.pending, msgIncr, now),
             sent := if msgIncr == "" then l.sent else l.sent + [msgIncr]), Ok(Unit))
  }

  /** Waiting for one response; others are buffered in order of arrival. */
  function Await(l: Link, msgIncr: string): (Link, Result<Resp>)
    decreases |l.inputs|
  {
    if l.inputs == [] then (l, Err(Network)) else
    FromStreamConsumes(l, true);
    var (l1, received) := FromStream(l, true);
    match received
    case TimedOut(_) => (l1.(pending := l1.pending - {msgIncr}), Err(Network))
    case Failed => (l1, Err(Network))
    case Event(event) =>
      if event.Response? && event.resp.msgIncr == msgIncr then
        (l1.(answered := l1.answered + {|l1.arrived| - 1}), Ok(event.resp))
      else if event.Disconnected? then (l1, Err(Network))
      else if event.CarriesResp() then Await(l1.(buffered := l1.buffered + [event]), msgIncr)
      else Await(l1, msgIncr)
  }

  function SendAndAwait(l: Link, msgIncr: string, sendOk: bool, now: nat): (Link, Result<Resp>) {
    var (l1, sent) := Sent(l, msgIncr, sendOk, now);
    if sent.Err? then (l1, Err(sent.error)) else Await(l1, msgIncr)
  }

  /** A timed receive that ran out forgets the expired requests. */
  function NextTimed(l: Link, timeout: nat): (Link, Received) {
    var (l1, received) := Next(l, true);
    match received
    case TimedOut(now) => (l1.(pending := l1.pending - Expired(l1.pending, now, timeout)), received)
    case _ => (l1, received)
  }

  lemma {:induction false} FromStreamConsumes(l: Link, deadline: bool)
    requires l.inputs != []
    ensures |FromStream(l, deadline).0.inputs| < |l.inputs|
    decreases |l.inputs|
  {
    var rest := l.(inputs := l.inputs[1..]);
    if l.inputs[0].OtherFrame? || (l.inputs[0].Expires? && !deadline) {
      if rest.inputs != [] {
        FromStreamConsumes(rest, deadline);
      }
    }
  }

  /** A frame that reading passes over: a kind the client ignores, or a timer not asked for. */
  predicate PassedOver(frame: Input, deadline: bool) {
    frame.OtherFrame? || (frame.Expires? && !deadline)
  }

  /** What a frame that is not passed over is reported as. */
  function ReportOf(frame: Input, pending: Entries): Received
    requires !frame.OtherFrame?
  {
    match frame
    case Binary(None) => Failed
    case Binary(Some(resp)) =>
      Event(if resp.reqIdentifier != PUSH_MSG && resp.msgIncr != "" && resp.msgIncr in pending then Response(resp) else Push(resp))
    case Ping(pongSent) => if pongSent then Event(HeartbeatPing) else Failed
    case Pong => Event(HeartbeatPong)
    case UnexpectedText => Failed
    case FrameError => Failed
    case Close => Event(Disconnected)
    case Expires(now) => TimedOut(now)
  }

  /** Reading consumes the frames up to the first that is not passed over and reports that one;
      a socket without such a frame is disconnected. */
  lemma {:induction false} FromStreamIs(l: Link, deadline: bool) returns (j: nat)
    ensures j <= |l.inputs| && forall i :: 0 <= i < j ==> PassedOver(l.inputs[i], deadline)
    ensures var (l1, received) := FromStream(l, deadline);
      if j == |l.inputs| then received == Event(Disconnected) && l1 == l.(inputs := [])
      else
        && !PassedOver(l.inputs[j], deadline)
        && received == ReportOf(l.inputs[j], l.pending) && l1.inputs == l.inputs[j + 1..]
        && l1.pending == if received.Event? && received.event.Response? then l.pending - {received.event.resp.msgIncr} else l.pending
    decreases |l.inputs|
  {
    j := 0;
    if l.inputs != [] && PassedOver(l.inputs[0], deadline) {
      j := FromStreamIs(l.(inputs := l.inputs[1..]), deadline);
      j := j + 1;
    }
  }

  // ----- when a wait succeeds -----

  /** How a wait for `id` ends: with its response, by its timer, or because reading fails. */
  datatype End = Answered(resp: Resp) | RanOut | Broke

  /** The first frame that ends a wait for `id`, read off the frames alone. */
  function FirstEnd(inputs: seq<Input>, id: string): End {
    if inputs == [] then Broke
    else match inputs[0]
      case Binary(Some(resp)) =>
        if resp.reqIdentifier != PUSH_MSG && resp.msgIncr == id then Answered(resp) else FirstEnd(inputs[1..], id)
      case Ping(pongSent) => if pongSent then FirstEnd(inputs[1..], id) else Broke
      case Pong => FirstEnd(inputs[1..], id)
      case OtherFrame => FirstEnd(inputs[1..], id)
      case Expires(_) => RanOut
      case Binary(None) => Broke
      case UnexpectedText => Broke
      case FrameError => Broke
      case Close => Broke
  }

  /** A wait for a registered id succeeds exactly if its response is the first frame to end
      it, and returns that response; the registration is left exactly if reading failed. */
  lemma {:induction false} AwaitEndsIff(l: Link, id: string)
    requires id != "" && id in l.pending
    ensures var (l1, r) := Await(l, id);
      && (r.Ok? <==> FirstEnd(l.inputs, id).Answered?)
      && (r.Ok? ==> r.value == FirstEnd(l.inputs, id).resp)
      && (id in l1.pending <==> FirstEnd(l.inputs, id).Broke?)
    decreases |l.inputs|
  {
    if l.inputs != [] {
      FromStreamConsumes(l, true);
      var rest := l.(inputs := l.inputs[1..]);
      match l.inputs[0] {
        case Binary(Some(resp)) =>
          if resp.reqIdentifier == PUSH_MSG || resp.msgIncr != id {
            var l1 := FromStream(l, true).0;
            AwaitEndsIff(l1.(buffered := l1.buffered + [FromStream(l, true).1.event]), id);
          }
        case Ping(pongSent) =>
          if pongSent {
            AwaitEndsIff(rest, id);
          }
        case Pong => AwaitEndsIff(rest, id);
        case OtherFrame =>
          SkippedFrame(l, id);
          AwaitEndsIff(rest, id);
        case _ =>
      }
    }
  }

  lemma SkippedFrame(l: Link, id: string)
    requires l.inputs != [] && l.inputs[0].OtherFrame?
    ensures Await(l, id) == Await(l.(inputs := l.inputs[1..]), id)
  {
    FromStreamConsumes(l, true);
    var rest := l.(inputs := l.inputs[1..]);
    if rest.inputs != [] {
      FromStreamConsumes(rest, true);
    }
  }

  /** Nothing answers a request without an id. */
  lemma {:induction false} EmptyIdFails(l: Link)
    ensures Await(l, "").1.Err?
    decreases |l.inputs|
  {
    if l.inputs != [] {
      FromStreamConsumes(l, true);
      NoEmptyResponse(l);
      var (l1, received) := FromStream(l, true);
      if received.Event? && !received.event.Disconnected? {
        EmptyIdFails(if received.event.CarriesResp() then l1.(buffered := l1.buffered + [received.event]) else l1);
      }
    }
  }

  lemma {:induction false} NoEmptyResponse(l: Link)
    ensures var received := FromStream(l, true).1;
      received.Event? && received.event.Response? ==> received.event.resp.msgIncr != ""
    decreases |l.inputs|
  {
    if l.inputs != [] && l.inputs[0].OtherFrame? {
      NoEmptyResponse(l.(inputs := l.inputs[1..]));
    }
  }

  /** A request is answered exactly if it is sent, has an id, and the first frame to end the
      wait is the response to that id. */
  lemma RequestSucceedsIff(l: Link, id: string, sendOk: bool, now: nat)
    ensures var (l1, r) := SendAndAwait(l, id, sendOk, now);
      && (r.Ok? <==> sendOk && id != "" && FirstEnd(l.inputs, id).Answered?)
      && (r.Ok? ==> r.value == FirstEnd(l.inputs, id).resp)
      && (sendOk && id != "" ==> (id in l1.pending <==> FirstEnd(l.inputs, id).Broke?))
  {
    if sendOk {
      if id == "" {
        EmptyIdFails(Sent(l, id, sendOk, now).0);
      } else {
        AwaitEndsIff(Sent(l, id, sendOk, now).0, id);
      }
    }
  }

  /** A broken frame fails the request and leaves it registered. */
  lemma LeftPendingExample()
    ensures var (l1, r) := SendAndAwait(Opened([FrameError]), "m", true, 0);
      r.Err? && "m" in l1.pending
  {
    RequestSucceedsIff(Opened([FrameError]), "m", true, 0);
  }

  // ----- the client -----

  class NativeWsClient {
    const pending: PendingRequests
    var buffered: seq<TransportEvent>
    var inputs: seq<Input>
    ghost var arrived: seq<TransportEvent>
    ghost var handed: seq<TransportEvent>
    ghost var answered: set<int>
    ghost var sent: seq<string>

    ghost function State(): Link
      reads this, pending
    {
      Link(pending.entries, buffered, inputs, arrived, handed, answered, sent)
    }

    constructor (inputs: seq<Input>)
      ensures State() == Opened(inputs) && fresh(pending)
    {
      pending := new PendingRequests();
      this.buffered, this.inputs := [], inputs;
      arrived, handed, answered, sent := [], [], {}, [];
    }

    method SendRequest(msgIncr: string, sendOk: bool, now: nat) returns (r: Result<Unit>)
      modifies this, pending
      ensures (State(), r) == Sent(old(State()), msgIncr, sendOk, now)
      ensures r == if sendOk then Ok(Unit) else Err(Network)
      ensures forall k ::
        Lookup(pending.entries, k) == if sendOk && k == msgIncr && k != "" then Some(now) else Lookup(old(pending.entries), k)
    {
      if !sendOk {
        return Err(Network);
      }
      pending.RegisterAt(msgIncr, now);
      if msgIncr != "" {
        sent := sent + [msgIncr];
      }
      return Ok(Unit);
    }

    method RecvFromStream(deadline: bool) returns (received: Received)
      modifies this, pending
      ensures (State(), received) == FromStream(old(State()), deadline)
    {
      while inputs != []
        invariant FromStream(State(), deadline) == FromStream(old(State()), deadline)
        decreases |inputs|
      {
        var frame := inputs[0];
        inputs := inputs[1..];
        match frame {
          case Binary(Some(resp)) =>
            var event := RouteEnvelope(resp, pending);
            arrived := arrived + [event];
            return Event(event);
          case Binary(None) => return Failed;
          case Ping(pongSent) => return if pongSent then Event(HeartbeatPing) else Failed;
          case Pong => return Event(HeartbeatPong);
          case UnexpectedText => return Failed;
          case FrameError => return Failed;
          case Close => return Event(Disconnected);
          case OtherFrame =>
          case Expires(now) =>
            if deadline {
              return TimedOut(now);
            }
        }
      }
      return Event(Disconnected);
    }

    method RecvEvent(deadline: bool) returns (received: Received)
      modifies this, pending
      ensures (State(), received) == Next(old(State()), deadline)
      ensures old(buffered) != [] ==>
        received == Event(old(buffered)[0]) && buffered == old(buffered)[1..] && inputs == old(inputs)
    {
      if buffered != [] {
        var event := buffered[0];
        buffered := buffered[1..];
        handed := if event.CarriesResp() then handed + [event] else handed;
        return Event(event);
      }
      received := RecvFromStream(deadline);
      if received.Event? && received.event.CarriesResp() {
        handed := handed + [received.event];
      }
    }

    method SendRequestWaitResponse(msgIncr: string, sendOk: bool, now: nat) returns (r: Result<Resp>)
      modifies this, pending
      ensures (State(), r) == SendAndAwait(old(State()), msgIncr, sendOk, now)
      ensures r.Ok? <==> sendOk && msgIncr != "" && FirstEnd(old(inputs), msgIncr).Answered?
      ensures r.Ok? ==> r.value == FirstEnd(old(inputs), msgIncr).resp
    {
      RequestSucceedsIff(State(), msgIncr, sendOk, now);
      var sending := SendRequest(msgIncr, sendOk, now);
      if sending.Err? {
        return Err(sending.error);
      }
      ghost var start := State();
      while inputs != []
        invariant Await(State(), msgIncr) == Await(start, msgIncr)
        decreases |inputs|
      {
        ghost var before := State();
        FromStreamConsumes(before, true);
        var received := RecvFromStream(true);
        match received {
          case TimedOut(_) =>
            var found := pending.Resolve(msgIncr);
            return Err(Network);
          case Failed => return Err(Network);
          case Event(event) =>
            if event.Response? && event.resp.msgIncr == msgIncr {
              answered := answered + {|arrived| - 1};
              return Ok(event.resp);
            }
            if event.Disconnected? {
              return Err(Network);
            }
            if event.CarriesResp() {
              buffered := buffered + [event];
            }
        }
      }
      return Err(Network);
    }

    /** Receives within a time limit.  When the limit passes, every request that has waited
        at least that long is forgotten and one of them is reported. */
    method RecvEventWithTimeout(timeout: nat) returns (r: Result<TransportEvent>)
      modifies this, pending
      ensures State() == NextTimed(old(State()), timeout).0
      ensures var (l1, received) := Next(old(State()), true);
        match received
        case Event(event) => r == Ok(event)
        case Failed => r == Err(Network)
        case TimedOut(now) =>
          if Expired(l1.pending, now, timeout) == {} then r == Err(Network)
          else r.Ok? && r.value.RequestTimeout? && r.value.msgIncr in Expired(l1.pending, now, timeout)
      ensures var (l1, received) := Next(old(State()), true);
        forall k :: Lookup(pending.entries, k) ==
          if k in l1.pending && received.TimedOut? && (timeout == 0 || received.now >= l1.pending[k] + timeout) then None
          else Lookup(l1.pending, k)
    {
      ghost var l1 := Next(State(), true).0;
      var received := RecvEvent(true);
      match received {
        case Event(event) => return Ok(event);
        case Failed => return Err(Network);
        case TimedOut(now) =>
          var expired := pending.ExpireAt(now, timeout);
          if expired == [] {
            return Err(Network);
          }
          assert expired[0] in expired;
          return Ok(RequestTimeout(expired[0]));
      }
    }

    /** Reconnects; a new connection starts with nothing pending and nothing buffered, and
        until there is one the client stays as it was. */
    method Reconnect(policy: ReconnectPolicy, outcome: nat -> ConnectOutcome<seq<Input>>, patience: nat)
      returns (r: Option<Result<Unit>>, connects: nat)
      modifies this, pending
      ensures connects <= patience && (!Endless(policy.maxAttempts) ==> connects <= policy.maxAttempts as nat)
      ensures forall k: nat :: 1 <= k < connects ==> outcome(k).Refused?
      ensures r.None? ==> connects == patience && forall k: nat :: 1 <= k <= patience ==> outcome(k).Refused?
      ensures r.Some? ==> connects > 0 && (r.value.Ok? <==> outcome(connects).Established?)
      ensures r.Some? && outcome(connects).Refused? ==>
        !Endless(policy.maxAttempts) && connects == policy.maxAttempts as nat
      ensures State() == if r == Some(Ok(Unit)) then Opened(outcome(connects).stream) else old(State())
    {
      var attempts := Attempts(outcome, ReconnectAttempt<seq<Input>>);
      var stream, slept;
      stream, connects, slept := RetryLoop(policy.maxAttempts, Delays(policy), attempts, patience);
      RefusedMeansAgain(outcome);
      if stream.None? {
        return None, connects;
      }
      if stream.value.Err? {
        return Some(Err(stream.value.error)), connects;
      }
      inputs := stream.value.value;
      pending.Clear();
      buffered := [];
      arrived, handed, answered, sent := [], [], {}, [];
      return Some(Ok(Unit)), connects;
    }

    /** The first connection: whatever goes wrong with an attempt, the next one is made. */
    static method ConnectWithRetries(policy: ReconnectPolicy, outcome: nat -> ConnectOutcome<seq<Input>>, patience: nat)
      returns (r: Option<Result<NativeWsClient>>, connects: nat)
      ensures connects <= patience && (!Endless(policy.maxAttempts) ==> connects <= policy.maxAttempts as nat)
      ensures forall k: nat :: 1 <= k < connects ==> !outcome(k).Established?
      ensures r.None? ==> connects == patience && forall k: nat :: 1 <= k <= patience ==> !outcome(k).Established?
      ensures r.Some? ==> connects > 0 && (r.value.Ok? <==> outcome(connects).Established?)
      ensures r.Some? && r.value.Err? ==> !Endless(policy.maxAttempts) && connects == policy.maxAttempts as nat
      ensures r.Some? && r.value.Ok? ==> fresh(r.value.value) && r.value.value.State() == Opened(outcome(connects).stream)
    {
      var attempts := Attempts(outcome, ConnectAttempt<seq<Input>>);
      var stream, slept;
      stream, connects, slept := RetryLoop(policy.maxAttempts, Delays(policy), attempts, patience);
      NotEstablishedMeansAgain(outcome);
      if stream.None? {
        return None, connects;
      }
      if stream.value.Err? {
        return Some(Err(stream.value.error)), connects;
      }
      var client := new NativeWsClient(stream.value.value);
      return Some(Ok(client)), connects;
    }
  }

  function Attempts<T>(outcome: nat -> ConnectOutcome<T>, meaning: ConnectOutcome<T> -> Attempt<T>): nat -> Attempt<T> {
    (k: nat) => meaning(outcome(k))
  }

  lemma RefusedMeansAgain<T>(outcome: nat -> ConnectOutcome<T>)
    ensures forall k: nat :: Attempts(outcome, ReconnectAttempt<T>)(k).Again? <==> outcome(k).Refused?
  {
  }

  lemma NotEstablishedMeansAgain<T>(outcome: nat -> ConnectOutcome<T>)
    ensures forall k: nat :: Attempts(outcome, ConnectAttempt<T>)(k).Again? <==> !outcome(k).Established?
  {
  }

  // ----- first in, first out, nothing lost -----

  /** The decoded responses among the inputs, in order. */
  function Decoded(inputs: seq<Input>): seq<Resp> {
    if inputs == [] then [] else DecodedOne(inputs[0]) + Decoded(inputs[1..])
  }

  function DecodedOne(frame: Input): seq<Resp> {
    match frame
    case Binary(Some(resp)) => [resp]
    case _ => []
  }

  function Payloads(events: seq<TransportEvent>): seq<Resp> {
    if events == [] then [] else
    var last := events[|events| - 1];
    Payloads(events[..|events| - 1]) + (if last.CarriesResp() then [last.resp] else [])
  }

  /** The arrivals that no waiting request took, in order of arrival. */
  function Kept(arrived: seq<TransportEvent>, answered: set<int>): seq<TransportEvent> {
    if arrived == [] then [] else
    var n := |arrived| - 1;
    Kept(arrived[..n], answered) + (if n in answered then [] else [arrived[n]])
  }

  lemma KeptSnoc(arrived: seq<TransportEvent>, answered: set<int>, event: TransportEvent)
    ensures Kept(arrived + [event], answered)
         == Kept(arrived, answered) + (if |arrived| in answered then [] else [event])
  {
    assert (arrived + [event])[..|arrived|] == arrived;
  }

  lemma {:induction false} KeptIgnoresLater(arrived: seq<TransportEvent>, answered: set<int>, i: nat)
    requires i >= |arrived|
    ensures Kept(arrived, answered + {i}) == Kept(arrived, answered)
  {
    if arrived != [] {
      KeptIgnoresLater(arrived[..|arrived| - 1], answered, i);
    }
  }

  /** The responses that waiting requests took, in order of arrival. */
  function Taken(arrived: seq<TransportEvent>, answered: set<int>): seq<Resp> {
    if arrived == [] then [] else
    var n := |arrived| - 1;
    Taken(arrived[..n], answered) + (if n in answered && arrived[n].Response? then [arrived[n].resp] else [])
  }

  lemma TakenSnoc(arrived: seq<TransportEvent>, answered: set<int>, event: TransportEvent)
    ensures Taken(arrived + [event], answered)
         == Taken(arrived, answered) + (if |arrived| in answered && event.Response? then [event.resp] else [])
  {
    assert (arrived + [event])[..|arrived|] == arrived;
  }

  lemma {:induction false} TakenIgnoresLater(arrived: seq<TransportEvent>, answered: set<int>, i: nat)
    requires i >= |arrived|
    ensures Taken(arrived, answered + {i}) == Taken(arrived, answered)
  {
    if arrived != [] {
      TakenIgnoresLater(arrived[..|arrived| - 1], answered, i);
    }
  }

  /** An arrival nobody took is no answer. */
  lemma ArrivalNotTaken(arrived: seq<TransportEvent>, answered: set<int>, event: TransportEvent)
    requires forall i :: i in answered ==> i < |arrived|
    ensures Taken(arrived + [event], answered) == Taken(arrived, answered)
  {
    TakenSnoc(arrived, answered, event);
    assert Taken(arrived, answered) + [] == Taken(arrived, answered);
  }

  /** Taking the newest arrival adds it to the answers. */
  lemma NewestTaken(arrived: seq<TransportEvent>, answered: set<int>, event: TransportEvent)
    requires event.Response?
    ensures Taken(arrived + [event], answered + {|arrived|}) == Taken(arrived, answered) + [event.resp]
  {
    TakenSnoc(arrived, answered + {|arrived|}, event);
    TakenIgnoresLater(arrived, answered, |arrived|);
  }

  /** How often an id was registered, and how often a response to it arrived. */
  function CountSent(sent: seq<string>, id: string): nat {
    if sent == [] then 0 else CountSent(sent[..|sent| - 1], id) + (if sent[|sent| - 1] == id then 1 else 0)
  }

  function CountResponses(arrived: seq<TransportEvent>, id: string): nat {
    if arrived == [] then 0 else
    var last := arrived[|arrived| - 1];
    CountResponses(arrived[..|arrived| - 1], id) + (if last.Response? && last.resp.msgIncr == id then 1 else 0)
  }

  /** Everything the socket delivered is accounted for. */
  ghost predicate Accounted(l: Link, inputs: seq<Input>) {
    && (forall i :: 0 <= i < |l.arrived| ==> l.arrived[i].CarriesResp())
    && (forall i :: 0 <= i < |l.buffered| ==> l.buffered[i].CarriesResp())
    && (forall i :: i in l.answered ==> 0 <= i < |l.arrived| && l.arrived[i].Response?)
    && Payloads(l.arrived) + Decoded(l.inputs) == Decoded(inputs)
  }

  /** Handed out and buffered, in this order, are exactly the arrivals no wait took. */
  ghost predicate InOrder(l: Link) {
    l.handed + l.buffered == Kept(l.arrived, l.answered)
  }

  /** A response is classified as such at most once for each registration of its id. */
  ghost predicate OncePerRegistration(l: Link) {
    forall id :: CountResponses(l.arrived, id) + (if id in l.pending then 1 else 0) <= CountSent(l.sent, id)
  }

  ghost predicate LinkOk(l: Link, inputs: seq<Input>) {
    Accounted(l, inputs) && InOrder(l) && OncePerRegistration(l)
  }

  lemma RoutedOnce(l: Link, resp: Resp)
    requires OncePerRegistration(l)
    ensures var (event, pending) := Routed(resp, l.pending);
      OncePerRegistration(l.(pending := pending, arrived := l.arrived + [event]))
  {
    var (event, pending) := Routed(resp, l.pending);
    assert (l.arrived + [event])[..|l.arrived|] == l.arrived;
    forall id
      ensures CountResponses(l.arrived + [event], id) + (if id in pending then 1 else 0) <= CountSent(l.sent, id)
    {
      assert CountResponses(l.arrived, id) + (if id in l.pending then 1 else 0) <= CountSent(l.sent, id);
    }
  }

  lemma PayloadMoves(arrived: seq<TransportEvent>, event: TransportEvent, inputs: seq<Input>)
    requires inputs != [] && event.CarriesResp() && inputs[0] == Binary(Some(event.resp))
    ensures Payloads(arrived + [event]) + Decoded(inputs[1..]) == Payloads(arrived) + Decoded(inputs)
  {
    assert (arrived + [event])[..|arrived|] == arrived;
    var rest := Decoded(inputs[1..]);
    assert (Payloads(arrived) + [event.resp]) + rest == Payloads(arrived) + ([event.resp] + rest);
  }

  lemma RoutedAccounted(l: Link, resp: Resp, inputs: seq<Input>)
    requires Accounted(l, inputs) && l.inputs != [] && l.inputs[0] == Binary(Some(resp))
    ensures var (event, pending) := Routed(resp, l.pending);
      Accounted(l.(pending := pending, arrived := l.arrived + [event], inputs := l.inputs[1..]), inputs)
  {
    PayloadMoves(l.arrived, Routed(resp, l.pending).0, l.inputs);
  }

  /** Routing one decoded response accounts for it, and uses up its registration at most. */
  lemma ArrivalKeeps(l: Link, inputs: seq<Input>)
    requires Accounted(l, inputs) && OncePerRegistration(l)
    requires l.inputs != [] && l.inputs[0].Binary? && l.inputs[0].decoded.Some?
    ensures var (l1, received) := FromStream(l, true);
      Accounted(l1, inputs) && OncePerRegistration(l1)
  {
    RoutedAccounted(l, l.inputs[0].decoded.value, inputs);
    RoutedOnce(l, l.inputs[0].decoded.value);
  }

  /** Reading one event from the socket adds it to the arrivals if it carries a response, and
      leaves what was buffered, handed out, taken and sent. */
  lemma {:induction false} FromStreamAdds(l: Link, deadline: bool)
    ensures var (l1, received) := FromStream(l, deadline);
      && l1.buffered == l.buffered && l1.handed == l.handed && l1.answered == l.answered && l1.sent == l.sent
      && l1.arrived == if received.Event? && received.event.CarriesResp() then l.arrived + [received.event] else l.arrived
    decreases |l.inputs|
  {
    if l.inputs != [] {
      var frame := l.inputs[0];
      if frame.OtherFrame? || (frame.Expires? && !deadline) {
        FromStreamAdds(l.(inputs := l.inputs[1..]), deadline);
      }
    }
  }

  /** A frame without a response is accounted for by leaving the socket. */
  lemma FrameSkipped(l: Link, inputs: seq<Input>)
    requires Accounted(l, inputs) && OncePerRegistration(l)
    requires l.inputs != [] && DecodedOne(l.inputs[0]) == []
    ensures var rest := l.(inputs := l.inputs[1..]);
      Accounted(rest, inputs) && OncePerRegistration(rest)
  {
    assert [] + Decoded(l.inputs[1..]) == Decoded(l.inputs[1..]);
  }

  lemma {:induction false} FromStreamAccounts(l: Link, deadline: bool, inputs: seq<Input>)
    requires Accounted(l, inputs) && OncePerRegistration(l)
    ensures Accounted(FromStream(l, deadline).0, inputs) && OncePerRegistration(FromStream(l, deadline).0)
    decreases |l.inputs|
  {
    if l.inputs != [] {
      var frame := l.inputs[0];
      if frame.Binary? && frame.decoded.Some? {
        ArrivalKeeps(l, inputs);
      } else {
        FrameSkipped(l, inputs);
        if frame.OtherFrame? || (frame.Expires? && !deadline) {
          FromStreamAccounts(l.(inputs := l.inputs[1..]), deadline, inputs);
        }
      }
    }
  }

  /** What reading one event from the socket does to the record. */
  lemma FromStreamStep(l: Link, deadline: bool, inputs: seq<Input>)
    requires Accounted(l, inputs) && OncePerRegistration(l)
    ensures var (l1, received) := FromStream(l, deadline);
      && Accounted(l1, inputs) && OncePerRegistration(l1)
      && l1.buffered == l.buffered && l1.handed == l.handed && l1.answered == l.answered && l1.sent == l.sent
      && l1.arrived == if received.Event? && received.event.CarriesResp() then l.arrived + [received.event] else l.arrived
  {
    FromStreamAdds(l, deadline);
    FromStreamAccounts(l, deadline, inputs);
  }

  lemma NextKeeps(l: Link, deadline: bool, inputs: seq<Input>)
    requires LinkOk(l, inputs)
    ensures LinkOk(Next(l, deadline).0, inputs)
  {
    if l.buffered != [] {
      var event := l.buffered[0];
      assert l.buffered == [event] + l.buffered[1..];
      assert (l.handed + [event]) + l.buffered[1..] == l.handed + l.buffered;
    } else {
      FromStreamStep(l, deadline, inputs);
      var (l1, received) := FromStream(l, deadline);
      if received.Event? && received.event.CarriesResp() {
        FreshIndex(l, received.event);
        assert l.handed + [] == l.handed;
        assert (l.handed + [received.event]) + [] == l.handed + [received.event];
      }
    }
  }

  /** A new arrival is kept, as no wait has taken it yet. */
  lemma FreshIndex(l: Link, event: TransportEvent)
    requires forall i :: i in l.answered ==> i < |l.arrived|
    ensures Kept(l.arrived + [event], l.answered) == Kept(l.arrived, l.answered) + [event]
  {
    KeptSnoc(l.arrived, l.answered, event);
  }

  lemma SentKeeps(l: Link, msgIncr: string, sendOk: bool, now: nat, inputs: seq<Input>)
    requires LinkOk(l, inputs)
    ensures LinkOk(Sent(l, msgIncr, sendOk, now).0, inputs)
  {
    if sendOk && msgIncr != "" {
      assert (l.sent + [msgIncr])[..|l.sent|] == l.sent;
    }
  }

  lemma ForgetKeeps(l: Link, ids: set<string>, inputs: seq<Input>)
    requires LinkOk(l, inputs)
    ensures LinkOk(l.(pending := l.pending - ids), inputs)
  {
  }

  /** `l1` is `l` after `event` arrived, not yet handed out, buffered or taken. */
  ghost predicate JustArrived(l: Link, l1: Link, event: TransportEvent, inputs: seq<Input>) {
    && Accounted(l1, inputs) && OncePerRegistration(l1)
    && l1.buffered == l.buffered && l1.handed == l.handed && l1.answered == l.answered
    && l1.arrived == l.arrived + [event] && event.CarriesResp()
  }

  /** Buffering what was not awaited. */
  lemma BufferKeeps(l: Link, l1: Link, event: TransportEvent, inputs: seq<Input>)
    requires LinkOk(l, inputs) && JustArrived(l, l1, event, inputs)
    ensures LinkOk(l1.(buffered := l1.buffered + [event]), inputs)
  {
    FreshIndex(l, event);
    assert l.handed + (l.buffered + [event]) == (l.handed + l.buffered) + [event];
  }

  lemma TakenIsNotKept(arrived: seq<TransportEvent>, answered: set<int>, event: TransportEvent)
    ensures Kept(arrived + [event], answered + {|arrived|}) == Kept(arrived, answered)
  {
    KeptSnoc(arrived, answered + {|arrived|}, event);
    KeptIgnoresLater(arrived, answered, |arrived|);
    assert Kept(arrived, answered) + [] == Kept(arrived, answered);
  }

  /** The awaited response leaves no trace in what is handed out. */
  lemma AnswerKeeps(l: Link, l1: Link, event: TransportEvent, inputs: seq<Input>)
    requires LinkOk(l, inputs) && JustArrived(l, l1, event, inputs) && event.Response?
    ensures LinkOk(l1.(answered := l1.answered + {|l1.arrived| - 1}), inputs)
  {
    TakenIsNotKept(l.arrived, l.answered, event);
  }

  /** `l1` has the same answers as `l` and those given by `answers`. */
  ghost predicate AnswersGrow(l: Link, l1: Link, answers: seq<Resp>) {
    && Taken(l1.arrived, l1.answered) == Taken(l.arrived, l.answered) + answers
    && |l1.answered| == |l.answered| + |answers|
  }

  lemma NothingTaken(l: Link, l1: Link)
    requires l1.arrived == l.arrived && l1.answered == l.answered
    ensures AnswersGrow(l, l1, [])
  {
    assert Taken(l.arrived, l.answered) + [] == Taken(l.arrived, l.answered);
  }

  lemma ArrivalTakesNothing(l: Link, l1: Link, event: TransportEvent)
    requires l1.arrived == l.arrived + [event] && l1.answered == l.answered
    requires forall i :: i in l.answered ==> i < |l.arrived|
    ensures AnswersGrow(l, l1, [])
  {
    ArrivalNotTaken(l.arrived, l.answered, event);
    assert Taken(l.arrived, l.answered) + [] == Taken(l.arrived, l.answered);
  }

  lemma GrowTwice(l: Link, l1: Link, l2: Link, a: seq<Resp>, b: seq<Resp>)
    requires AnswersGrow(l, l1, a) && AnswersGrow(l1, l2, b)
    ensures AnswersGrow(l, l2, a + b)
  {
    assert Taken(l.arrived, l.answered) + a + b == Taken(l.arrived, l.answered) + (a + b);
  }

  function Answer(r: Result<Resp>): seq<Resp> {
    if r.Ok? then [r.value] else []
  }

  /** What a wait leaves behind: the record is right; a wait that succeeds has taken exactly
      one arrival, the newest, a response to its own id; one that fails has taken none. */
  ghost predicate Waited(l: Link, l1: Link, r: Result<Resp>, msgIncr: string, inputs: seq<Input>) {
    && LinkOk(l1, inputs) && AnswersGrow(l, l1, Answer(r))
    && (r.Err? ==> l1.answered == l.answered)
    && (r.Ok? ==>
          && r.value.msgIncr == msgIncr
          && l1.arrived != [] && l1.arrived[|l1.arrived| - 1] == Response(r.value)
          && l1.answered == l.answered + {|l1.arrived| - 1} && |l1.arrived| - 1 !in l.answered)
  }

  /** The wait takes the arrival. */
  lemma WaitAnswered(l: Link, l1: Link, event: TransportEvent, msgIncr: string, inputs: seq<Input>)
    requires LinkOk(l, inputs) && JustArrived(l, l1, event, inputs)
    requires event.Response? && event.resp.msgIncr == msgIncr
    ensures Waited(l, l1.(answered := l1.answered + {|l1.arrived| - 1}), Ok(event.resp), msgIncr, inputs)
  {
    AnswerKeeps(l, l1, event, inputs);
    NewestTaken(l.arrived, l.answered, event);
    assert |l.arrived| !in l.answered;
  }

  /** The wait fails without anything having arrived. */
  lemma WaitFailed(l: Link, l1: Link, ids: set<string>, msgIncr: string, inputs: seq<Input>)
    requires LinkOk(l, inputs) && Accounted(l1, inputs) && OncePerRegistration(l1)
    requires l1.buffered == l.buffered && l1.handed == l.handed && l1.answered == l.answered && l1.arrived == l.arrived
    ensures Waited(l, l1.(pending := l1.pending - ids), Err(Network), msgIncr, inputs)
  {
    ForgetKeeps(l1, ids, inputs);
    NothingTaken(l, l1);
  }

  /** A wait that goes on after taking nothing. */
  lemma WaitGoesOn(l: Link, l1: Link, l2: Link, r: Result<Resp>, msgIncr: string, inputs: seq<Input>)
    requires l1.answered == l.answered && AnswersGrow(l, l1, [])
    requires Waited(l1, l2, r, msgIncr, inputs)
    ensures Waited(l, l2, r, msgIncr, inputs)
  {
    GrowTwice(l, l1, l2, [], Answer(r));
    assert [] + Answer(r) == Answer(r);
  }

  /** Buffering an arrival for later. */
  lemma WaitBuffers(l: Link, l1: Link, event: TransportEvent, inputs: seq<Input>)
    requires LinkOk(l, inputs) && JustArrived(l, l1, event, inputs)
    ensures var l2 := l1.(buffered := l1.buffered + [event]);
      LinkOk(l2, inputs) && l2.answered == l.answered && AnswersGrow(l, l2, [])
  {
    BufferKeeps(l, l1, event, inputs);
    ArrivalTakesNothing(l, l1.(buffered := l1.buffered + [event]), event);
  }

  lemma {:induction false} AwaitKeeps(l: Link, msgIncr: string, inputs: seq<Input>)
    requires LinkOk(l, inputs)
    ensures Waited(l, Await(l, msgIncr).0, Await(l, msgIncr).1, msgIncr, inputs)
    decreases |l.inputs|
  {
    if l.inputs == [] {
      NothingTaken(l, l);
    } else {
      FromStreamConsumes(l, true);
      FromStreamStep(l, true, inputs);
      var (l1, received) := FromStream(l, true);
      match received {
        case TimedOut(_) => WaitFailed(l, l1, {msgIncr}, msgIncr, inputs);
        case Failed => WaitFailedAsIs(l, l1, msgIncr, inputs);
        case Event(event) => AwaitEvent(l, l1, event, msgIncr, inputs);
      }
    }
  }

  lemma WaitFailedAsIs(l: Link, l1: Link, msgIncr: string, inputs: seq<Input>)
    requires LinkOk(l, inputs) && Accounted(l1, inputs) && OncePerRegistration(l1)
    requires l1.buffered == l.buffered && l1.handed == l.handed && l1.answered == l.answered && l1.arrived == l.arrived
    ensures Waited(l, l1, Err(Network), msgIncr, inputs)
  {
    NothingTaken(l, l1);
  }

  lemma {:induction false} AwaitEvent(l: Link, l1: Link, event: TransportEvent, msgIncr: string, inputs: seq<Input>)
    requires LinkOk(l, inputs) && l.inputs != [] && FromStream(l, true) == (l1, Event(event))
    requires |l1.inputs| < |l.inputs| && Accounted(l1, inputs) && OncePerRegistration(l1)
    requires l1.buffered == l.buffered && l1.handed == l.handed && l1.answered == l.answered
    requires l1.arrived == if event.CarriesResp() then l.arrived + [event] else l.arrived
    ensures Waited(l, Await(l, msgIncr).0, Await(l, msgIncr).1, msgIncr, inputs)
    decreases |l.inputs|, 0
  {
    if event.Response? && event.resp.msgIncr == msgIncr {
      WaitAnswered(l, l1, event, msgIncr, inputs);
    } else if event.Disconnected? {
      WaitFailedAsIs(l, l1, msgIncr, inputs);
    } else {
      var l2 := if event.CarriesResp() then l1.(buffered := l1.buffered + [event]) else l1;
      if event.CarriesResp() {
        WaitBuffers(l, l1, event, inputs);
      } else {
        NothingTaken(l, l1);
      }
      AwaitKeeps(l2, msgIncr, inputs);
      WaitGoesOn(l, l2, Await(l2, msgIncr).0, Await(l2, msgIncr).1, msgIncr, inputs);
    }
  }

  // ----- any mix of operations -----

  datatype Op =
    | Send(id: string, sendOk: bool, now: nat)
    | Recv
    | RecvTimed(timeout: nat)
    | Request(id: string, sendOk: bool, now: nat)

  function Perform(l: Link, op: Op): Link {
    match op
    case Send(id, sendOk, now) => Sent(l, id, sendOk, now).0
    case Recv => Next(l, false).0
    case RecvTimed(timeout) => NextTimed(l, timeout).0
    case Request(id, sendOk, now) => SendAndAwait(l, id, sendOk, now).0
  }

  /** What the operation answers, if it is a request that succeeds. */
  function Reply(l: Link, op: Op): seq<Resp> {
    match op
    case Request(id, sendOk, now) => Answer(SendAndAwait(l, id, sendOk, now).1)
    case _ => []
  }

  function Run(l: Link, ops: seq<Op>): Link {
    if ops == [] then l else Perform(Run(l, ops[..|ops| - 1]), ops[|ops| - 1])
  }

  /** What the successful requests of a run answered, in order. */
  function Replies(l: Link, ops: seq<Op>): seq<Resp> {
    if ops == [] then [] else
    var n := |ops| - 1;
    Replies(l, ops[..n]) + Reply(Run(l, ops[..n]), ops[n])
  }

  lemma NextTakesNothing(l: Link, deadline: bool, inputs: seq<Input>)
    requires LinkOk(l, inputs)
    ensures AnswersGrow(l, Next(l, deadline).0, [])
  {
    if l.buffered != [] {
      NothingTaken(l, Next(l, deadline).0);
    } else {
      FromStreamStep(l, deadline, inputs);
      var received := FromStream(l, deadline).1;
      if received.Event? && received.event.CarriesResp() {
        ArrivalTakesNothing(l, Next(l, deadline).0, received.event);
      } else {
        NothingTaken(l, Next(l, deadline).0);
      }
    }
  }

  lemma RequestKeeps(l: Link, id: string, sendOk: bool, now: nat, inputs: seq<Input>)
    requires LinkOk(l, inputs)
    ensures var (l1, r) := SendAndAwait(l, id, sendOk, now);
      LinkOk(l1, inputs) && AnswersGrow(l, l1, Answer(r))
  {
    var l1 := Sent(l, id, sendOk, now).0;
    SentKeeps(l, id, sendOk, now, inputs);
    NothingTaken(l, l1);
    if sendOk {
      AwaitKeeps(l1, id, inputs);
      GrowTwice(l, l1, Await(l1, id).0, [], Answer(Await(l1, id).1));
      assert [] + Answer(Await(l1, id).1) == Answer(Await(l1, id).1);
    }
  }

  lemma TimedKeeps(l: Link, timeout: nat, inputs: seq<Input>)
    requires LinkOk(l, inputs)
    ensures LinkOk(NextTimed(l, timeout).0, inputs) && AnswersGrow(l, NextTimed(l, timeout).0, [])
  {
    NextKeeps(l, true, inputs);
    NextTakesNothing(l, true, inputs);
    var (l1, received) := Next(l, true);
    if received.TimedOut? {
      ForgetKeeps(l1, Expired(l1.pending, received.now, timeout), inputs);
    }
  }

  lemma PerformKeeps(l: Link, op: Op, inputs: seq<Input>)
    requires LinkOk(l, inputs)
    ensures LinkOk(Perform(l, op), inputs)
    ensures AnswersGrow(l, Perform(l, op), Reply(l, op))
  {
    match op {
      case Send(id, sendOk, now) =>
        SentKeeps(l, id, sendOk, now, inputs);
        NothingTaken(l, Sent(l, id, sendOk, now).0);
      case Recv =>
        NextKeeps(l, false, inputs);
        NextTakesNothing(l, false, inputs);
      case RecvTimed(timeout) => TimedKeeps(l, timeout, inputs);
      case Request(id, sendOk, now) => RequestKeeps(l, id, sendOk, now, inputs);
    }
  }

  /** Over any mix of operations on one connection: every decoded response has arrived or is
      still on the socket; what was handed out followed by what is buffered is, in order of
      arrival, everything that arrived but the answers taken by waits; and those answers are
      exactly, one for one and in order, what the successful requests returned. */
  lemma {:induction false} FifoWithoutLoss(inputs: seq<Input>, ops: seq<Op>)
    ensures var l := Run(Opened(inputs), ops);
      && LinkOk(l, inputs)
      && Taken(l.arrived, l.answered) == Replies(Opened(inputs), ops)
      && |l.answered| == |Replies(Opened(inputs), ops)|
  {
    if ops == [] {
      assert Payloads([]) + Decoded(inputs) == Decoded(inputs);
    } else {
      var n := |ops| - 1;
      FifoWithoutLoss(inputs, ops[..n]);
      PerformKeeps(Run(Opened(inputs), ops[..n]), ops[n], inputs);
    }
  }
}
