/** The resources of a logged-in session, and closing them when some refuse to close. */
module SessionResources {
  import opened Common

  datatype ResourceKind = Storage | Transport | Sync

  /** `handle` is the identity of the opened thing. */
  datatype Resource = Resource(kind: ResourceKind, name: string, handle: nat)

  datatype TransportConfig = TransportConfig(
    wsAddr: string, userId: string, token: string, platformId: int, operationId: string,
    sdkType: string, sdkVersion: string, isBackground: bool, compression: bool, sendResponse: bool)

  datatype StorageTarget = Unconfigured | Sqlite(path: string) | IndexedDb(name: string)

  datatype Runtime = Runtime(userId: string, transport: TransportConfig, storage: StorageTarget,
                             resources: seq<Resource>)

  /** Which handles close and which fail in one pass. */
  type Closes = nat -> bool

  function Closing(closes: Closes): Resource -> bool {
    (r: Resource) => closes(r.handle)
  }

  function Refusing(closes: Closes): Resource -> bool {
    (r: Resource) => !closes(r.handle)
  }

  function Handles(resources: seq<Resource>): (handles: seq<nat>)
    ensures |handles| == |resources| && forall i :: 0 <= i < |resources| ==> handles[i] == resources[i].handle
  {
    seq(|resources|, i requires 0 <= i < |resources| => resources[i].handle)
  }

  /** What one pass leaves open, in the original order. */
  function Remaining(resources: seq<Resource>, closes: Closes): seq<Resource> {
    Filter(resources, Refusing(closes))
  }

  /** What one pass closes, newest first. */
  function ClosedBy(resources: seq<Resource>, closes: Closes): seq<Resource> {
    Filter(Reverse(resources), Closing(closes))
  }

  lemma ReverseSnoc<T>(s: seq<T>, x: T)
    ensures Reverse(s + [x]) == [x] + Reverse(s)
  {
  }

  lemma FilterOne<T>(x: T, p: T -> bool)
    ensures Filter([x], p) == if p(x) then [x] else []
  {
    assert [x][..0] == [];
  }

  lemma ReverseMaybeSnoc<T>(s: seq<T>, x: T, more: bool)
    ensures Reverse(s + (if more then [x] else [])) == (if more then [x] else []) + Reverse(s)
  {
  }

  lemma {:induction false} FilterReverse<T>(s: seq<T>, p: T -> bool)
    ensures Filter(Reverse(s), p) == Reverse(Filter(s, p))
  {
    if s != [] {
      var n := |s| - 1;
      FilterReverse(s[..n], p);
      assert s == s[..n] + [s[n]];
      ReverseSnoc(s[..n], s[n]);
      FilterAppend([s[n]], Reverse(s[..n]), p);
      FilterOne(s[n], p);
      ReverseMaybeSnoc(Filter(s[..n], p), s[n], p(s[n]));
    }
  }

  class SessionRuntimeResources {
    const userId: string
    const transport: TransportConfig
    const storage: StorageTarget
    var resources: seq<Resource>
    ghost var attempts: seq<nat>

    function State(): Runtime
      reads this
    {
      Runtime(userId, transport, storage, resources)
    }

    constructor (r: Runtime)
      ensures State() == r && attempts == []
    {
      userId, transport, storage, resources := r.userId, r.transport, r.storage, r.resources;
      attempts := [];
    }

    /** Tries to close every resource once, newest first; the ones that fail stay, in their
        order. */
    method CloseAll(closes: Closes) returns (r: Result<seq<Resource>>)
      modifies this
      ensures resources == Remaining(old(resources), closes)
      ensures attempts == old(attempts) + Reverse(Handles(old(resources)))
      ensures r == if resources == [] then Ok(ClosedBy(old(resources), closes)) else Err(External)
    {
      var closed: seq<Resource> := [];
      var remaining: seq<Resource> := [];
      var firstError: Option<Error> := None;
      ghost var all, tried := resources, attempts;
      assert all[|all|..] == [];
      while resources != []
        invariant resources <= all
        invariant closed == Filter(Reverse(all[|resources|..]), Closing(closes))
        invariant remaining == Filter(Reverse(all[|resources|..]), Refusing(closes))
        invariant attempts == tried + Reverse(Handles(all[|resources|..]))
        invariant firstError == if remaining == [] then None else Some(External)
        decreases |resources|
      {
        var n := |resources| - 1;
        var resource := resources[n];
        resources := resources[..n];
        PassStep(all, n, closes);
        attempts := attempts + [resource.handle];
        if closes(resource.handle) {
          closed := closed + [resource];
        } else {
          if firstError.None? {
            firstError := Some(External);
          }
          remaining := remaining + [resource];
        }
      }
      assert all[0..] == all;
      BackInOrder(all, closes);
      resources := Reverse(remaining);
      if firstError.Some? {
        return Err(firstError.value);
      }
      return Ok(closed);
    }
  }

  lemma ReversePrepend<T>(x: T, s: seq<T>)
    ensures Reverse([x] + s) == Reverse(s) + [x]
  {
    assert ([x] + s)[1..] == s;
  }

  lemma NewestFirst(r: Resource, later: seq<Resource>, p: Resource -> bool)
    ensures Filter(Reverse([r] + later), p) == Filter(Reverse(later), p) + (if p(r) then [r] else [])
  {
    ReversePrepend(r, later);
    FilterSnoc(Reverse(later), r, p);
  }

  lemma HandlesPrepend(r: Resource, s: seq<Resource>)
    ensures Reverse(Handles([r] + s)) == Reverse(Handles(s)) + [r.handle]
  {
    assert Handles([r] + s) == [r.handle] + Handles(s);
    ReversePrepend(r.handle, Handles(s));
  }

  /** What one turn of the closing loop adds to what was tried, closed and refused. */
  lemma PassStep(all: seq<Resource>, n: nat, closes: Closes)
    requires n < |all|
    ensures var r, later := all[n], all[n + 1..];
      && Filter(Reverse(all[n..]), Closing(closes))
         == Filter(Reverse(later), Closing(closes)) + (if closes(r.handle) then [r] else [])
      && Filter(Reverse(all[n..]), Refusing(closes))
         == Filter(Reverse(later), Refusing(closes)) + (if closes(r.handle) then [] else [r])
      && Reverse(Handles(all[n..])) == Reverse(Handles(later)) + [r.handle]
  {
    assert all[n..] == [all[n]] + all[n + 1..];
    NewestFirst(all[n], all[n + 1..], Closing(closes));
    NewestFirst(all[n], all[n + 1..], Refusing(closes));
    HandlesPrepend(all[n], all[n + 1..]);
  }

  lemma BackInOrder(all: seq<Resource>, closes: Closes)
    ensures Reverse(Filter(Reverse(all), Refusing(closes))) == Remaining(all, closes)
  {
    FilterReverse(all, Refusing(closes));
    ReverseTwice(Filter(all, Refusing(closes)));
  }

  lemma ReverseTwice<T>(s: seq<T>)
    ensures Reverse(Reverse(s)) == s
  {
  }

  // ----- over several passes -----

  /** What is open, and every handle closed so far, oldest first. */
  datatype CloseRecord = CloseRecord(open: seq<Resource>, closed: seq<nat>)

  function PassOver(c: CloseRecord, closes: Closes): CloseRecord {
    CloseRecord(Remaining(c.open, closes), c.closed + Handles(ClosedBy(c.open, closes)))
  }

  function Passes(c: CloseRecord, passes: seq<Closes>): CloseRecord {
    if passes == [] then c else PassOver(Passes(c, passes[..|passes| - 1]), passes[|passes| - 1])
  }

  lemma {:induction false} HandlesSplit(resources: seq<Resource>, closes: Closes)
    ensures multiset(Handles(resources))
         == multiset(Handles(Filter(resources, Closing(closes)))) + multiset(Handles(Filter(resources, Refusing(closes))))
  {
    if resources != [] {
      var n := |resources| - 1;
      var x := resources[n];
      HandlesSplit(resources[..n], closes);
      assert resources == resources[..n] + [x];
      HandlesSnoc(resources[..n], x);
      HandlesSnoc(Filter(resources[..n], Closing(closes)), x);
      HandlesSnoc(Filter(resources[..n], Refusing(closes)), x);
      assert Filter(resources[..n], Closing(closes)) + [] == Filter(resources[..n], Closing(closes));
      assert Filter(resources[..n], Refusing(closes)) + [] == Filter(resources[..n], Refusing(closes));
    }
  }

  lemma HandlesSnoc(s: seq<Resource>, r: Resource)
    ensures Handles(s + [r]) == Handles(s) + [r.handle]
  {
  }

  lemma HandlesReverse(s: seq<Resource>)
    ensures multiset(Handles(Reverse(s))) == multiset(Handles(s))
  {
    assert Handles(Reverse(s)) == Reverse(Handles(s));
    ReverseMultiset(Handles(s));
  }

  /** A pass moves handles from open to closed and loses none. */
  lemma PassConserves(c: CloseRecord, closes: Closes)
    ensures var after := PassOver(c, closes);
      multiset(after.closed) + multiset(Handles(after.open)) == multiset(c.closed) + multiset(Handles(c.open))
  {
    HandlesSplit(c.open, closes);
    FilterReverse(c.open, Closing(closes));
    HandlesReverse(Filter(c.open, Closing(closes)));
  }

  lemma {:induction false} PassesConserve(c: CloseRecord, passes: seq<Closes>)
    ensures var after := Passes(c, passes);
      multiset(after.closed) + multiset(Handles(after.open)) == multiset(c.closed) + multiset(Handles(c.open))
  {
    if passes != [] {
      PassesConserve(c, passes[..|passes| - 1]);
      PassConserves(Passes(c, passes[..|passes| - 1]), passes[|passes| - 1]);
    }
  }

  /** Over any passes no handle is closed twice or both closed and open, and when nothing is
      left open every handle has been closed exactly once. */
  lemma ClosedExactlyOnce(resources: seq<Resource>, passes: seq<Closes>)
    requires NoDup(Handles(resources))
    ensures var after := Passes(CloseRecord(resources, []), passes);
      && NoDup(after.closed)
      && (forall h :: h in after.closed ==> h !in Handles(after.open))
      && (after.open == [] ==> multiset(after.closed) == multiset(Handles(resources)))
  {
    PassesConserve(CloseRecord(resources, []), passes);
    var after := Passes(CloseRecord(resources, []), passes);
    assert multiset(after.closed + Handles(after.open)) == multiset(Handles(resources));
    NoDupFromMultiset(Handles(resources), after.closed + Handles(after.open));
    NoDupParts(after.closed, Handles(after.open));
  }

  /** The open ones stay in their original order: they are those that every pass refused. */
  lemma {:induction false} OpenKeepsOrder(resources: seq<Resource>, passes: seq<Closes>)
    ensures Passes(CloseRecord(resources, []), passes).open == Filter(resources, RefusedByAll(passes))
  {
    if passes == [] {
      FilterEverything(resources, RefusedByAll(passes));
    } else {
      var n := |passes| - 1;
      OpenKeepsOrder(resources, passes[..n]);
      FilterTwice(resources, RefusedByAll(passes[..n]), Refusing(passes[n]), RefusedByAll(passes));
    }
  }

  predicate Refused(passes: seq<Closes>, handle: nat) {
    passes == [] || (Refused(passes[..|passes| - 1], handle) && !passes[|passes| - 1](handle))
  }

  function RefusedByAll(passes: seq<Closes>): Resource -> bool {
    (r: Resource) => Refused(passes, r.handle)
  }

  lemma {:induction false} FilterShorter<T>(s: seq<T>, p: T -> bool)
    ensures |Filter(s, p)| <= |s|
    ensures |Filter(s, p)| == |s| ==> forall i :: 0 <= i < |s| ==> p(s[i])
  {
    if s != [] {
      var n := |s| - 1;
      FilterShorter(s[..n], p);
      assert forall i :: 0 <= i < n ==> s[..n][i] == s[i];
    }
  }

  /** The caller is told only what the last pass closed.  That is everything exactly when
      every pass that failed before it closed nothing at all. */
  lemma AnnouncedAllIff(resources: seq<Resource>, failed: seq<Closes>, last: Closes)
    requires var before := Passes(CloseRecord(resources, []), failed).open; Remaining(before, last) == []
    ensures var before := Passes(CloseRecord(resources, []), failed).open;
      ClosedBy(before, last) == Reverse(resources) <==>
        forall i :: 0 <= i < |resources| ==> Refused(failed, resources[i].handle)
  {
    var before := Passes(CloseRecord(resources, []), failed).open;
    OpenKeepsOrder(resources, failed);
    NoneRemaining(before, last);
    FilterReverse(before, Closing(last));
    FilterEverything(before, Closing(last));
    FilterShorter(resources, RefusedByAll(failed));
    if ClosedBy(before, last) == Reverse(resources) {
      assert |before| == |resources|;
      assert forall i :: 0 <= i < |resources| ==> RefusedByAll(failed)(resources[i]);
    } else if forall i :: 0 <= i < |resources| ==> Refused(failed, resources[i].handle) {
      FilterEverything(resources, RefusedByAll(failed));
    }
  }

  lemma {:induction false} NoneRemaining(resources: seq<Resource>, closes: Closes)
    requires Remaining(resources, closes) == []
    ensures forall r :: r in resources ==> Closing(closes)(r)
  {
    FilterMembers(resources, Refusing(closes));
    forall r | r in resources ensures Closing(closes)(r) {
      assert r in Filter(resources, Refusing(closes)) <==> Refusing(closes)(r);
    }
  }

  /** What one pass closes when it closes all. */
  lemma AllClosed(open: seq<Resource>, closes: Closes)
    requires Remaining(open, closes) == []
    ensures ClosedBy(open, closes) == Reverse(open)
  {
    NoneRemaining(open, closes);
    FilterReverse(open, Closing(closes));
    FilterEverything(open, Closing(closes));
  }

  lemma {:induction false} FilterTwice<T>(s: seq<T>, p: T -> bool, q: T -> bool, both: T -> bool)
    requires forall x :: x in s ==> (both(x) <==> p(x) && q(x))
    ensures Filter(Filter(s, p), q) == Filter(s, both)
  {
    if s != [] {
      var n := |s| - 1;
      assert s == s[..n] + [s[n]];
      FilterTwice(s[..n], p, q, both);
      if p(s[n]) {
        FilterSnoc(Filter(s[..n], p), s[n], q);
      } else {
        assert Filter(s[..n], p) + [] == Filter(s[..n], p);
      }
    }
  }
}
