/** Requests waiting for a response, and the routing of what the server sends. */
module Transport {
  import opened Common

  const PUSH_MSG: int := 2001

  datatype Resp = Resp(reqIdentifier: int, errCode: int, msgIncr: string, data: seq<int>)

  datatype TransportEvent =
    | Connected
    | Disconnected
    | Response(resp: Resp)
    | Push(resp: Resp)
    | HeartbeatPing
    | HeartbeatPong
    | RequestTimeout(msgIncr: string)
  {
    predicate CarriesResp() {
      Response? || Push?
    }
  }

  type Entries = map<string, nat>

  function Registered(entries: Entries, msgIncr: string, sentAt: nat): Entries {
    if msgIncr == "" then entries else entries[msgIncr := sentAt]
  }

  /** Ids whose request has waited at least `timeout`. */
  function Expired(entries: Entries, now: nat, timeout: nat): set<string> {
    set k | k in entries && Max(0, now - entries[k]) >= timeout
  }

  /** A request is forgotten exactly if its age has reached the timeout, where one registered
      later than now has no age; so that one survives any positive timeout. */
  lemma ExpiredIff(entries: Entries, now: nat, timeout: nat, k: string)
    ensures k in Expired(entries, now, timeout) <==> k in entries && (timeout == 0 || now >= entries[k] + timeout)
    ensures k in entries && entries[k] >= now && timeout > 0 ==> k !in Expired(entries, now, timeout)
  {
  }

  /** The event a response becomes, and the requests still waiting. */
  function Routed(resp: Resp, entries: Entries): (TransportEvent, Entries) {
    if resp.reqIdentifier == PUSH_MSG then (Push(resp), entries)
    else if resp.msgIncr != "" && resp.msgIncr in entries then (Response(resp), entries - {resp.msgIncr})
    else (Push(resp), entries)
  }

  class PendingRequests {
    var entries: Entries

    constructor ()
      ensures entries == map[]
    {
      entries := map[];
    }

    method RegisterAt(msgIncr: string, sentAt: nat)
      modifies this
      ensures entries == Registered(old(entries), msgIncr, sentAt)
      ensures forall k ::
        Lookup(entries, k) == if k == msgIncr && k != "" then Some(sentAt) else Lookup(old(entries), k)
    {
      if msgIncr != "" {
        entries := entries[msgIncr := sentAt];
      }
    }

    method Resolve(msgIncr: string) returns (found: bool)
      modifies this
      ensures found == (msgIncr in old(entries))
      ensures entries == old(entries) - {msgIncr}
    {
      found := msgIncr in entries;
      entries := entries - {msgIncr};
    }

    /** Removes the expired requests and lists them in an order nobody promises. */
    method ExpireAt(now: nat, timeout: nat) returns (expired: seq<string>)
      modifies this
      ensures NoDup(expired)
      ensures forall k :: k in expired <==> k in Expired(old(entries), now, timeout)
      ensures entries == old(entries) - Expired(old(entries), now, timeout)
      ensures forall k :: k in expired <==>
        k in old(entries) && (timeout == 0 || now >= old(entries)[k] + timeout)
    {
      expired := [];
      var rest := entries.Keys;
      while rest != {}
        invariant entries == old(entries) && rest <= entries.Keys
        invariant NoDup(expired)
        invariant forall k :: k in expired <==> k in Expired(entries, now, timeout) && k !in rest
      {
        var k :| k in rest;
        if Max(0, now - entries[k]) >= timeout {
          NoDupSnoc(expired, k);
          expired := expired + [k];
        }
        rest := rest - {k};
      }
      for i := 0 to |expired|
        invariant entries == old(entries) - Elems(expired[..i])
      {
        TakeSnoc(expired, i);
        entries := entries - {expired[i]};
      }
      assert expired[..|expired|] == expired;
      assert Elems(expired) == Expired(old(entries), now, timeout);
    }

    method Clear()
      modifies this
      ensures entries == map[]
    {
      entries := map[];
    }
  }

  method RouteEnvelope(resp: Resp, pending: PendingRequests) returns (event: TransportEvent)
    modifies pending
    ensures (event, pending.entries) == Routed(resp, old(pending.entries))
    ensures event ==
      if resp.reqIdentifier != 2001 && resp.msgIncr != "" && resp.msgIncr in old(pending.entries) then Response(resp) else Push(resp)
    ensures pending.entries == if event.Response? then old(pending.entries) - {resp.msgIncr} else old(pending.entries)
  {
    if resp.reqIdentifier == PUSH_MSG {
      return Push(resp);
    }
    if resp.msgIncr != "" {
      var found := pending.Resolve(resp.msgIncr);
      if found {
        return Response(resp);
      }
      assert pending.entries == old(pending.entries);
    }
    return Push(resp);
  }
}
