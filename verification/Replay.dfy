/** Checking the events a client emitted in a scenario against what the scenario requires. */
module Replay {
  import opened Common

  datatype ReplayEvent = ReplayEvent(scenario: string, listener: string, method_: string)

  datatype Scenario = Scenario(name: string, requiredOrder: seq<string>, optionalEvents: seq<string>)

  datatype Fixture = Fixture(requiredScenarios: seq<string>, eventScenarios: seq<Scenario>)

  function EventName(event: ReplayEvent): string {
    if '.' in event.method_ then event.method_
    else if event.listener == "Base" then "Base." + event.method_
    else event.method_
  }

  /** The names of the events of one scenario, in order. */
  function EventNames(events: seq<ReplayEvent>, scenario: string): seq<string> {
    if events == [] then [] else
    var n := |events| - 1;
    EventNames(events[..n], scenario) + (if events[n].scenario == scenario then [EventName(events[n])] else [])
  }

  /** The name of an event, written out: a method with a dot is a whole name already, and one
      without belongs to its listener only if that is the base listener. */
  lemma EventNameIs(listener: string, method_: string)
    ensures EventName(ReplayEvent("", listener, method_))
         == if '.' !in method_ && listener == "Base" then "Base." + method_ else method_
  {
  }

  /** Exactly the events of the scenario are named, in order. */
  lemma {:induction false} NamesOfScenario(events: seq<ReplayEvent>, scenario: string) returns (at: seq<nat>)
    ensures forall k :: k in at <==> 0 <= k < |events| && events[k].scenario == scenario
    ensures forall i, j :: 0 <= i < j < |at| ==> at[i] < at[j]
    ensures |at| == |EventNames(events, scenario)|
    ensures forall i :: 0 <= i < |at| ==> at[i] in at && EventNames(events, scenario)[i] == EventName(events[at[i]])
  {
    at := [];
    if events != [] {
      var n := |events| - 1;
      var before := NamesOfScenario(events[..n], scenario);
      at := before + (if events[n].scenario == scenario then [n] else []);
      assert forall k :: k in at <==> k in before || (k == n && events[n].scenario == scenario);
    }
  }

  // ----- subsequences -----

  /** `places` says where in `observed` each required event stands, in order. */
  predicate Embeds(required: seq<string>, observed: seq<string>, places: seq<int>) {
    && |places| == |required|
    && (forall i :: 0 <= i < |places| ==> 0 <= places[i] < |observed| && observed[places[i]] == required[i])
    && (forall i, j :: 0 <= i < j < |places| ==> places[i] < places[j])
  }

  ghost predicate Subsequence(required: seq<string>, observed: seq<string>) {
    exists places :: Embeds(required, observed, places)
  }

  lemma EmbedsPrefix(required: seq<string>, observed: seq<string>, places: seq<int>, n: nat)
    requires Embeds(required, observed, places) && n <= |required|
    ensures Embeds(required[..n], observed, places[..n])
  {
  }

  /** The greedy search is never behind any other way to place the events found so far. */
  ghost predicate Earliest(required: seq<string>, observed: seq<string>, cursor: nat) {
    forall places :: Embeds(required, observed, places) && |places| > 0 ==> places[|places| - 1] >= cursor - 1
  }

  lemma PlacedFromCursor(required: seq<string>, observed: seq<string>, i: nat, cursor: nat, places: seq<int>)
    requires i < |required| && Embeds(required[..i + 1], observed, places)
    requires i == 0 ==> cursor == 0
    requires Earliest(required[..i], observed, cursor)
    ensures cursor <= places[i] < |observed| && observed[places[i]] == required[i]
  {
    EmbedsPrefix(required[..i + 1], observed, places, i);
    assert required[..i + 1][..i] == required[..i];
    if i > 0 {
      assert places[..i][i - 1] >= cursor - 1;
      assert places[i - 1] < places[i];
    }
    assert observed[places[i]] == required[..i + 1][i];
  }

  lemma EarliestStep(required: seq<string>, observed: seq<string>, i: nat, cursor: nat, next: nat)
    requires i < |required| && cursor <= next < |observed| && observed[next] == required[i]
    requires i == 0 ==> cursor == 0
    requires Earliest(required[..i], observed, cursor)
    requires forall k :: cursor <= k < next ==> observed[k] != required[i]
    ensures Earliest(required[..i + 1], observed, next + 1)
  {
    forall places | Embeds(required[..i + 1], observed, places) ensures places[i] >= next {
      PlacedFromCursor(required, observed, i, cursor, places);
    }
  }

  lemma NoPlaceLeft(required: seq<string>, observed: seq<string>, i: nat, cursor: nat)
    requires i < |required|
    requires i == 0 ==> cursor == 0
    requires Earliest(required[..i], observed, cursor)
    requires forall k :: cursor <= k < |observed| ==> observed[k] != required[i]
    ensures !Subsequence(required, observed)
  {
    forall places | Embeds(required, observed, places) ensures false {
      EmbedsPrefix(required, observed, places, i + 1);
      PlacedFromCursor(required, observed, i, cursor, places[..i + 1]);
    }
  }

  method Position(observed: seq<string>, cursor: nat, name: string) returns (found: Option<nat>)
    requires cursor <= |observed|
    ensures found.None? ==> forall k :: cursor <= k < |observed| ==> observed[k] != name
    ensures found.Some? ==>
      && cursor <= found.value < |observed| && observed[found.value] == name
      && forall k :: cursor <= k < found.value ==> observed[k] != name
  {
    for i := cursor to |observed|
      invariant forall k :: cursor <= k < i ==> observed[k] != name
    {
      if observed[i] == name {
        return Some(i);
      }
    }
    return None;
  }

  /** The greedy search: it finds the required events in order exactly when they are there. */
  method InOrder(required: seq<string>, observed: seq<string>) returns (found: bool)
    ensures found <==> Subsequence(required, observed)
  {
    var cursor := 0;
    ghost var places: seq<int> := [];
    for i := 0 to |required|
      invariant cursor <= |observed| && (i == 0 ==> cursor == 0)
      invariant i > 0 ==> cursor > 0
      invariant Embeds(required[..i], observed, places)
      invariant i > 0 ==> places[i - 1] == cursor - 1
      invariant Earliest(required[..i], observed, cursor)
    {
      var position := Position(observed, cursor, required[i]);
      if position.None? {
        NoPlaceLeft(required, observed, i, cursor);
        return false;
      }
      EarliestStep(required, observed, i, cursor, position.value);
      places := places + [position.value];
      cursor := position.value + 1;
    }
    assert required[..|required|] == required;
    return true;
  }

  // ----- scenarios -----

  /** The first scenario of that name. */
  function FindScenario(scenarios: seq<Scenario>, name: string): Option<Scenario> {
    if scenarios == [] then None
    else if scenarios[0].name == name then Some(scenarios[0])
    else FindScenario(scenarios[1..], name)
  }

  ghost predicate MeetsScenario(scenario: Scenario, observed: seq<string>) {
    && observed != []
    && (forall i :: 0 <= i < |observed| ==> observed[i] in scenario.requiredOrder || observed[i] in scenario.optionalEvents)
    && Subsequence(scenario.requiredOrder, observed)
  }

  /** What a transcript must satisfy to pass for a scenario. */
  ghost predicate Passes(fixture: Fixture, name: string, events: seq<ReplayEvent>) {
    var scenario := FindScenario(fixture.eventScenarios, name);
    scenario.Some? && MeetsScenario(scenario.value, EventNames(events, name))
  }

  method FindByName(scenarios: seq<Scenario>, name: string) returns (found: Option<Scenario>)
    ensures found == FindScenario(scenarios, name)
    ensures found.None? <==> forall s :: s in scenarios ==> s.name != name
    ensures found.Some? ==> exists i :: 0 <= i < |scenarios| && scenarios[i] == found.value && scenarios[i].name == name
                                        && forall j :: 0 <= j < i ==> scenarios[j].name != name
  {
    for i := 0 to |scenarios|
      invariant FindScenario(scenarios, name) == FindScenario(scenarios[i..], name)
      invariant forall j :: 0 <= j < i ==> scenarios[j].name != name
    {
      assert scenarios[i..][1..] == scenarios[i + 1..];
      if scenarios[i].name == name {
        return Some(scenarios[i]);
      }
    }
    return None;
  }

  method ReplayEventNames(events: seq<ReplayEvent>, scenario: string) returns (names: seq<string>)
    ensures names == EventNames(events, scenario)
  {
    names := [];
    for i := 0 to |events|
      invariant names == EventNames(events[..i], scenario)
    {
      TakeSnoc(events, i);
      if events[i].scenario == scenario {
        names := names + [EventName(events[i])];
      }
    }
    assert events[..|events|] == events;
  }

  /** Sound and complete: accepted exactly when the transcript passes. */
  method ValidateReplayScenario(fixture: Fixture, name: string, events: seq<ReplayEvent>) returns (accepted: bool)
    ensures accepted <==> Passes(fixture, name, events)
  {
    var scenario := FindByName(fixture.eventScenarios, name);
    if scenario.None? {
      return false;
    }
    var observed := ReplayEventNames(events, name);
    if observed == [] {
      return false;
    }
    var required, optional := scenario.value.requiredOrder, scenario.value.optionalEvents;
    for i := 0 to |observed|
      invariant forall k :: 0 <= k < i ==> observed[k] in required || observed[k] in optional
    {
      if observed[i] !in required && observed[i] !in optional {
        return false;
      }
    }
    accepted := InOrder(required, observed);
  }

  method ValidateReplayTranscript(fixture: Fixture, events: seq<ReplayEvent>) returns (accepted: bool)
    ensures accepted <==> forall name :: name in fixture.requiredScenarios ==> Passes(fixture, name, events)
  {
    for i := 0 to |fixture.requiredScenarios|
      invariant forall k :: 0 <= k < i ==> Passes(fixture, fixture.requiredScenarios[k], events)
    {
      var passed := ValidateReplayScenario(fixture, fixture.requiredScenarios[i], events);
      if !passed {
        assert fixture.requiredScenarios[i] in fixture.requiredScenarios;
        return false;
      }
    }
    return true;
  }

  /** Two transcripts agree on a scenario. */
  predicate SameScenario(name: string, goEvents: seq<ReplayEvent>, rustEvents: seq<ReplayEvent>) {
    EventNames(goEvents, name) != [] && EventNames(goEvents, name) == EventNames(rustEvents, name)
  }

  /** A transcript that compares equal to another passes for exactly the same fixtures. */
  method CompareReplayScenario(name: string, goEvents: seq<ReplayEvent>, rustEvents: seq<ReplayEvent>)
    returns (same: bool)
    ensures same <==> SameScenario(name, goEvents, rustEvents)
    ensures same ==> forall fixture :: Passes(fixture, name, goEvents) <==> Passes(fixture, name, rustEvents)
  {
    var goOrder := ReplayEventNames(goEvents, name);
    var rustOrder := ReplayEventNames(rustEvents, name);
    return goOrder != [] && rustOrder != [] && goOrder == rustOrder;
  }
}
