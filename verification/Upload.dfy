/** Uploading the missing parts of a plan through signed requests, over any number of tries.

    The object storage is an environment: it answers the n-th signing request and the n-th
    put as it likes.  What it was asked, and what it granted, is recorded. */
module Upload {
  import opened Common
  import opened PartPlan

  const DEFAULT_MAX_SIGN_PARTS: nat := 20

  datatype PutReply = BadUrl | HttpFailed | Accepted(partNumber: nat)

  datatype Env = Env(sign: (nat, seq<nat>) -> Result<set<nat>>, put: (nat, nat) -> PutReply)

  /** A session: the numbers now signed, every signing request made, the part each granted
      request was made for, and the number of puts. */
  datatype Client = Client(partCount: nat, batch: nat, signed: set<nat>,
                           requests: seq<seq<nat>>, grants: seq<nat>, puts: nat)

  ghost predicate ValidClient(c: Client) {
    0 < c.batch && c.partCount <= U32_MAX
  }

  /** The numbers asked for when part `n` has no signature; the addition saturates. */
  function NextPartNumbers(c: Client, n: nat): seq<nat> {
    var end := Min(Min(n + (if c.batch == 0 then 0 else c.batch - 1), U32_MAX), c.partCount);
    if end < n then [] else seq(end + 1 - n, i requires 0 <= i => n + i)
  }

  function SignedPartRequest(c: Client, env: Env, n: nat): (Client, Result<Unit>) {
    if n == 0 || n > c.partCount then (c, Err(Args))
    else if n in c.signed then (c, Ok(Unit))
    else
      var numbers := NextPartNumbers(c, n);
      var asked := c.(requests := c.requests + [numbers]);
      match env.sign(|c.requests|, numbers)
      case Err(e) => (asked, Err(e))
      case Ok(signed) =>
        (asked.(signed := signed, grants := c.grants + [n]), if n in signed then Ok(Unit) else Err(SdkInternal))
  }

  function UploadOne(c: Client, env: Env, n: nat): (Client, Result<Unit>) {
    var (c1, r) := SignedPartRequest(c, env, n);
    if r.Err? then (c1, r) else
    var c2 := c1.(puts := c1.puts + 1);
    match env.put(c1.puts, n)
    case BadUrl => (c2, Err(Args))
    case HttpFailed => (c2, Err(External))
    case Accepted(k) => (c2, if k == n then Ok(Unit) else Err(Args))
  }

  datatype Pass = Pass(client: Client, parts: seq<UploadPart>, accepted: seq<nat>, result: Result<Unit>)

  /** One pass over the parts from position `i`: missing ones are uploaded and marked, and
      the first failure ends the pass. */
  function UploadFrom(c: Client, env: Env, parts: seq<UploadPart>, i: nat): Pass
    requires i <= |parts|
    decreases |parts| - i
  {
    if i == |parts| then Pass(c, parts, [], Ok(Unit))
    else if parts[i].uploaded then UploadFrom(c, env, parts, i + 1)
    else
      var n := parts[i].partNumber as nat;
      var (c1, r) := UploadOne(c, env, n);
      if r.Err? then Pass(c1, parts, [], r)
      else
        var rest := UploadFrom(c1, env, parts[i := parts[i].(uploaded := true)], i + 1);
        rest.(accepted := [n] + rest.accepted)
  }

  // ----- the code -----

  class SignedMultipartUploadClient {
    const env: Env
    var partCount: nat
    var batchSignCount: nat
    var signed: set<nat>
    var requests: seq<seq<nat>>
    var grants: seq<nat>
    var puts: nat

    function State(): Client
      reads this
    {
      Client(partCount, batchSignCount, signed, requests, grants, puts)
    }

    constructor (env: Env, partCount: nat, batchSignCount: nat, signed: set<nat>)
      requires partCount <= U32_MAX
      ensures this.env == env && ValidClient(State())
      ensures State() == Client(partCount, if batchSignCount == 0 then 1 else batchSignCount, signed, [], [], 0)
    {
      this.env := env;
      this.partCount := partCount;
      this.batchSignCount := if batchSignCount == 0 then 1 else batchSignCount;
      this.signed := signed;
      requests, grants, puts := [], [], 0;
    }

    method SignPart(n: nat) returns (r: Result<Unit>)
      modifies this
      ensures (State(), r) == SignedPartRequest(old(State()), env, n)
    {
      if n == 0 || n > partCount {
        return Err(Args);
      }
      if n !in signed {
        var numbers := NextPartNumbers(State(), n);
        var reply := env.sign(|requests|, numbers);
        requests := requests + [numbers];
        if reply.Err? {
          return Err(reply.error);
        }
        signed := reply.value;
        grants := grants + [n];
      }
      if n !in signed {
        return Err(SdkInternal);
      }
      return Ok(Unit);
    }

    method UploadPart(n: nat) returns (r: Result<Unit>)
      modifies this
      ensures (State(), r) == UploadOne(old(State()), env, n)
      ensures r.Ok? <==> Signs(old(State()), env, n) && env.put(old(puts), n) == Accepted(n)
    {
      UploadOneIff(State(), env, n);
      r := SignPart(n);
      if r.Err? {
        return;
      }
      var reply := env.put(puts, n);
      puts := puts + 1;
      match reply {
        case BadUrl => r := Err(Args);
        case HttpFailed => r := Err(External);
        case Accepted(k) => r := if k == n then Ok(Unit) else Err(Args);
      }
    }
  }

  class MultipartUploadPlan {
    const file: FileDigest
    var parts: seq<UploadPart>

    constructor (file: FileDigest, parts: seq<UploadPart>)
      ensures this.file == file && this.parts == parts
    {
      this.file := file;
      this.parts := parts;
    }

    /** Sets each flag to whether the part is among those already uploaded. */
    method Resume(uploadedParts: set<nat>)
      modifies this
      ensures |parts| == |old(parts)|
      ensures forall i :: 0 <= i < |parts| ==>
        parts[i] == old(parts)[i].(uploaded := old(parts)[i].partNumber as nat in uploadedParts)
    {
      for i := 0 to |parts|
        invariant |parts| == |old(parts)|
        invariant forall j :: 0 <= j < i ==>
          parts[j] == old(parts)[j].(uploaded := old(parts)[j].partNumber as nat in uploadedParts)
        invariant forall j :: i <= j < |parts| ==> parts[j] == old(parts)[j]
      {
        parts := parts[i := parts[i].(uploaded := parts[i].partNumber as nat in uploadedParts)];
      }
    }

    method UploadMissingParts(client: SignedMultipartUploadClient)
      returns (r: Result<Unit>, accepted: seq<nat>)
      modifies this, client
      ensures Pass(client.State(), parts, accepted, r) == UploadFrom(old(client.State()), client.env, old(parts), 0)
    {
      accepted := [];
      ghost var whole := UploadFrom(client.State(), client.env, parts, 0);
      for i := 0 to |parts|
        invariant |parts| == |old(parts)|
        invariant var rest := UploadFrom(client.State(), client.env, parts, i);
          whole == rest.(accepted := accepted + rest.accepted)
      {
        if !parts[i].uploaded {
          ghost var before := client.State();
          var n := parts[i].partNumber as nat;
          var uploaded := client.UploadPart(n);
          if uploaded.Err? {
            assert accepted + [] == accepted;
            return uploaded, accepted;
          }
          parts := parts[i := parts[i].(uploaded := true)];
          ghost var rest := UploadFrom(client.State(), client.env, parts, i + 1);
          assert accepted + ([n] + rest.accepted) == (accepted + [n]) + rest.accepted;
          accepted := accepted + [n];
        }
      }
      assert accepted + [] == accepted;
      return Ok(Unit), accepted;
    }
  }

  // ----- any number of tries -----

  /** `tries` passes one after the other on the same session. */
  function Tries(c: Client, env: Env, parts: seq<UploadPart>, tries: nat): Pass {
    if tries == 0 then Pass(c, parts, [], Ok(Unit)) else
    var before := Tries(c, env, parts, tries - 1);
    var last := UploadFrom(before.client, env, before.parts, 0);
    last.(accepted := before.accepted + last.accepted)
  }

  /** Parts are numbered from one, as a plan numbers them. */
  ghost predicate Numbered(parts: seq<UploadPart>) {
    forall i :: 0 <= i < |parts| ==> parts[i].partNumber as nat == i + 1
  }

  /** The parts with those before `j` marked. */
  function MarkFirst(parts: seq<UploadPart>, j: nat): (marked: seq<UploadPart>)
    requires j <= |parts|
    ensures |marked| == |parts|
    ensures forall i :: 0 <= i < |parts| ==>
      marked[i] == if i < j then parts[i].(uploaded := true) else parts[i]
  {
    seq(|parts|, i requires 0 <= i < |parts| => if i < j then parts[i].(uploaded := true) else parts[i])
  }

  /** Numbers of the missing parts at positions `i` to `j`. */
  function Missing(parts: seq<UploadPart>, i: nat, j: nat): seq<nat>
    requires i <= j <= |parts|
    decreases j - i
  {
    if i == j then []
    else if parts[i].uploaded then Missing(parts, i + 1, j)
    else [parts[i].partNumber as nat] + Missing(parts, i + 1, j)
  }

  ghost predicate UploadedBefore(parts: seq<UploadPart>, i: nat) {
    forall j :: 0 <= j < i && j < |parts| ==> parts[j].uploaded
  }

  lemma {:induction false} MissingDependsOnRange(a: seq<UploadPart>, b: seq<UploadPart>, i: nat, j: nat)
    requires |a| == |b| && i <= j <= |a|
    requires forall k :: i <= k < j ==> a[k] == b[k]
    ensures Missing(a, i, j) == Missing(b, i, j)
    decreases j - i
  {
    if i < j {
      MissingDependsOnRange(a, b, i + 1, j);
    }
  }

  lemma {:induction false} MissingSplit(parts: seq<UploadPart>, i: nat, j: nat, k: nat)
    requires i <= j <= k <= |parts|
    ensures Missing(parts, i, k) == Missing(parts, i, j) + Missing(parts, j, k)
    decreases j - i
  {
    if i < j {
      MissingSplit(parts, i + 1, j, k);
    }
  }

  lemma {:induction false} MissingNone(parts: seq<UploadPart>, i: nat, j: nat)
    requires i <= j <= |parts| && forall k :: i <= k < j ==> parts[k].uploaded
    ensures Missing(parts, i, j) == []
    decreases j - i
  {
    if i < j {
      MissingNone(parts, i + 1, j);
    }
  }

  /** A pass marks exactly the parts up to the one where it stops, and what was accepted is
      exactly the missing parts before that one, in order. */
  lemma {:induction false} PassMarksPrefix(c: Client, env: Env, parts: seq<UploadPart>, i: nat) returns (j: nat)
    requires i <= |parts| && UploadedBefore(parts, i)
    ensures i <= j <= |parts|
    ensures var pass := UploadFrom(c, env, parts, i);
      && pass.parts == MarkFirst(parts, j)
      && pass.accepted == Missing(parts, i, j)
      && (pass.result.Ok? <==> j == |parts|)
    ensures j < |parts| ==> !parts[j].uploaded
    decreases |parts| - i
  {
    if i == |parts| {
      j := i;
    } else if parts[i].uploaded {
      j := PassMarksPrefix(c, env, parts, i + 1);
    } else {
      var (c1, r) := UploadOne(c, env, parts[i].partNumber as nat);
      if r.Err? {
        j := i;
      } else {
        var marked := parts[i := parts[i].(uploaded := true)];
        j := PassMarksPrefix(c1, env, marked, i + 1);
        MissingDependsOnRange(marked, parts, i + 1, j);
        assert MarkFirst(marked, j) == MarkFirst(parts, j);
      }
    }
  }

  // ----- what the storage answered -----

  /** The storage lets part `n` be signed now: a held signature, or a request that grants it. */
  predicate Signs(c: Client, env: Env, n: nat) {
    && 1 <= n <= c.partCount
    && (n in c.signed
        || (env.sign(|c.requests|, NextPartNumbers(c, n)).Ok? && n in env.sign(|c.requests|, NextPartNumbers(c, n)).value))
  }

  /** A part goes through exactly if it can be signed and the storage acknowledges the put
      under the part's own number; there is a put exactly if it can be signed. */
  lemma UploadOneIff(c: Client, env: Env, n: nat)
    ensures var (c1, r) := UploadOne(c, env, n);
      && (r.Ok? <==> Signs(c, env, n) && env.put(c.puts, n) == Accepted(n))
      && c1.puts == c.puts + (if Signs(c, env, n) then 1 else 0)
  {
  }

  /** `numbers` runs from `n` on, for as many parts as a batch holds or as there are. */
  predicate BlockFrom(numbers: seq<nat>, n: nat, batch: nat, partCount: nat) {
    && |numbers| == Min(Max(1, batch), partCount - n + 1)
    && forall i :: 0 <= i < |numbers| ==> numbers[i] == n + i
  }

  /** What signing a part asks for: nothing if its signature is held, or else one block from the
      part on; what is answered to that replaces the signatures held. */
  lemma SigningExact(c: Client, env: Env, n: nat)
    requires ValidClient(c)
    ensures var (c1, r) := SignedPartRequest(c, env, n);
      if n == 0 || n > c.partCount then c1 == c && r == Err(Args)
      else if n in c.signed then c1 == c && r == Ok(Unit)
      else
        && |c1.requests| == |c.requests| + 1 && c.requests <= c1.requests
        && BlockFrom(c1.requests[|c.requests|], n, c.batch, c.partCount)
        && (match env.sign(|c.requests|, c1.requests[|c.requests|])
            case Err(e) => r == Err(e) && c1.signed == c.signed
            case Ok(signed) => r == (if n in signed then Ok(Unit) else Err(SdkInternal)) && c1.signed == signed)
  {
  }

  /** The storage acknowledged these numbers one after the other, from its put `from` on. */
  ghost predicate Acknowledged(env: Env, from: nat, numbers: seq<nat>) {
    forall m :: 0 <= m < |numbers| ==> env.put(from + m, numbers[m]) == Accepted(numbers[m])
  }

  /** Every number a pass reports as accepted was put in turn and acknowledged, and nothing
      else was put but, if the pass failed on its put, the part it stopped at.  The pass
      stops, at the first part left missing, exactly when that part cannot be signed or its
      put is answered otherwise. */
  lemma {:induction false} PassIsAcknowledged(c: Client, env: Env, parts: seq<UploadPart>, i: nat)
    returns (j: nat, at: Client)
    requires i <= |parts| && UploadedBefore(parts, i)
    ensures i <= j <= |parts|
    ensures var pass := UploadFrom(c, env, parts, i);
      && pass.accepted == Missing(parts, i, j) && Acknowledged(env, c.puts, pass.accepted)
      && at.puts == c.puts + |pass.accepted|
      && (pass.result.Ok? <==> j == |parts|)
      && (j == |parts| ==> pass.client == at)
      && (j < |parts| ==>
            var n := parts[j].partNumber as nat;
            && !parts[j].uploaded
            && !(Signs(at, env, n) && env.put(at.puts, n) == Accepted(n))
            && pass.client.puts == at.puts + (if Signs(at, env, n) then 1 else 0))
    decreases |parts| - i
  {
    if i == |parts| {
      j, at := i, c;
    } else if parts[i].uploaded {
      j, at := PassIsAcknowledged(c, env, parts, i + 1);
    } else {
      var n := parts[i].partNumber as nat;
      var (c1, r) := UploadOne(c, env, n);
      UploadOneIff(c, env, n);
      if r.Err? {
        j, at := i, c;
      } else {
        var marked := parts[i := parts[i].(uploaded := true)];
        j, at := PassIsAcknowledged(c1, env, marked, i + 1);
        MissingDependsOnRange(marked, parts, i + 1, j);
        AcknowledgedMore(env, c.puts, n, Missing(parts, i + 1, j));
      }
    }
  }

  lemma AcknowledgedMore(env: Env, from: nat, n: nat, rest: seq<nat>)
    requires env.put(from, n) == Accepted(n) && Acknowledged(env, from + 1, rest)
    ensures Acknowledged(env, from, [n] + rest)
  {
    forall m | 0 <= m < |[n] + rest| ensures env.put(from + m, ([n] + rest)[m]) == Accepted(([n] + rest)[m]) {
      if m > 0 {
        assert env.put(from + 1 + (m - 1), rest[m - 1]) == Accepted(rest[m - 1]);
      }
    }
  }

  /** Over any tries every accepted number was put and acknowledged under that number. */
  lemma {:induction false} TriesAreAcknowledged(c: Client, env: Env, parts: seq<UploadPart>, tries: nat)
    ensures var all := Tries(c, env, parts, tries);
      && c.puts <= all.client.puts
      && forall n :: n in all.accepted ==> exists k :: c.puts <= k < all.client.puts && env.put(k, n) == Accepted(n)
  {
    if tries > 0 {
      var before := Tries(c, env, parts, tries - 1);
      TriesAreAcknowledged(c, env, parts, tries - 1);
      var pass := UploadFrom(before.client, env, before.parts, 0);
      var j, at := PassIsAcknowledged(before.client, env, before.parts, 0);
      forall n | n in pass.accepted
        ensures exists k :: before.client.puts <= k < pass.client.puts && env.put(k, n) == Accepted(n)
      {
        var m :| 0 <= m < |pass.accepted| && pass.accepted[m] == n;
        assert env.put(before.client.puts + m, n) == Accepted(n);
      }
    }
  }

  /** So whatever part got marked had been acknowledged under its own number. */
  lemma MarkedWasAcknowledged(c: Client, env: Env, parts: seq<UploadPart>, tries: nat, n: nat)
    requires Numbered(parts) && 1 <= n <= |parts| && !parts[n - 1].uploaded
    ensures var all := Tries(c, env, parts, tries);
      |all.parts| == |parts| && (all.parts[n - 1].uploaded ==>
        exists k :: c.puts <= k < all.client.puts && env.put(k, n) == Accepted(n))
  {
    var j := TriesAcceptOnce(c, env, parts, tries);
    MissingNoDup(parts, 0, j);
    TriesAreAcknowledged(c, env, parts, tries);
    if n <= j {
      assert n in Missing(parts, 0, j);
    }
  }

  /** Over any tries, failing or not: flags only go up, the marked parts are those before
      some position, each missing part before it was accepted exactly once, and no other. */
  lemma {:induction false} TriesAcceptOnce(c: Client, env: Env, parts: seq<UploadPart>, tries: nat) returns (j: nat)
    ensures j <= |parts|
    ensures var all := Tries(c, env, parts, tries);
      && all.parts == MarkFirst(parts, j)
      && all.accepted == Missing(parts, 0, j)
      && (tries > 0 && all.result.Ok? ==> j == |parts|)
  {
    if tries == 0 {
      return 0;
    }
    var before := Tries(c, env, parts, tries - 1);
    var was := TriesAcceptOnce(c, env, parts, tries - 1);
    j := PassMarksPrefix(before.client, env, before.parts, 0);
    assert was <= j;
    MissingAfterMark(parts, was, j);
  }

  /** Going on from marked parts adds just the missing ones between. */
  lemma MissingAfterMark(parts: seq<UploadPart>, was: nat, now: nat)
    requires was <= now <= |parts|
    ensures Missing(parts, 0, was) + Missing(MarkFirst(parts, was), 0, now) == Missing(parts, 0, now)
    ensures MarkFirst(MarkFirst(parts, was), now) == MarkFirst(parts, now)
  {
    var marked := MarkFirst(parts, was);
    MissingSplit(marked, 0, was, now);
    MissingNone(marked, 0, was);
    MissingDependsOnRange(marked, parts, was, now);
    MissingSplit(parts, 0, was, now);
  }

  /** No number occurs twice among the missing ones. */
  lemma {:induction false} MissingNoDup(parts: seq<UploadPart>, i: nat, j: nat)
    requires i <= j <= |parts| && Numbered(parts)
    ensures NoDup(Missing(parts, i, j))
    ensures forall n :: n in Missing(parts, i, j) <==> i < n <= j && !parts[n - 1].uploaded
    decreases j - i
  {
    if i < j {
      MissingNoDup(parts, i + 1, j);
      var rest := Missing(parts, i + 1, j);
      forall k | 0 <= k < |rest| ensures rest[k] > i + 1 {
        assert rest[k] in rest;
      }
    }
  }

  /** Once a try succeeds, every part that was missing has been accepted exactly once. */
  lemma FinishedUpload(c: Client, env: Env, parts: seq<UploadPart>, tries: nat)
    requires Numbered(parts) && tries > 0 && Tries(c, env, parts, tries).result.Ok?
    ensures var all := Tries(c, env, parts, tries);
      && |all.parts| == |parts|
      && (forall i :: 0 <= i < |parts| ==> all.parts[i] == parts[i].(uploaded := true))
      && NoDup(all.accepted)
      && (forall n :: n in all.accepted <==> 0 < n <= |parts| && !parts[n - 1].uploaded)
  {
    var j := TriesAcceptOnce(c, env, parts, tries);
    MissingNoDup(parts, 0, j);
  }

  // ----- signing is amortised -----

  /** The storage signs every number it is asked for, if it answers. */
  ghost predicate SignsAllAsked(env: Env) {
    forall i, numbers :: env.sign(i, numbers).Ok? ==> forall n :: n in numbers ==> n in env.sign(i, numbers).value
  }

  /** Consecutive numbers of existing parts, at most a batch of them. */
  ghost predicate IsBlock(numbers: seq<nat>, batch: nat, partCount: nat) {
    && 0 < |numbers| <= batch
    && 1 <= numbers[0] && numbers[|numbers| - 1] <= partCount
    && forall i :: 0 <= i < |numbers| ==> numbers[i] == numbers[0] + i
  }

  lemma NextIsBlock(c: Client, n: nat)
    requires ValidClient(c) && 0 < n <= c.partCount
    ensures IsBlock(NextPartNumbers(c, n), c.batch, c.partCount)
    ensures NextPartNumbers(c, n)[0] == n
    ensures forall k :: n <= k < n + c.batch && k <= c.partCount ==> k in NextPartNumbers(c, n)
  {
    var numbers := NextPartNumbers(c, n);
    forall k | n <= k < n + c.batch && k <= c.partCount ensures k in numbers {
      assert numbers[k - n] == k;
    }
  }

  /** What holds between passes: granted requests lie a batch apart, the last one's block is
      signed, and every part before it is uploaded. */
  ghost predicate GrantsApart(c: Client, parts: seq<UploadPart>) {
    && ValidClient(c) && c.partCount == |parts|
    && (forall i :: 0 <= i < |c.requests| ==> IsBlock(c.requests[i], c.batch, c.partCount))
    && (c.grants != [] ==>
          var g := c.grants[|c.grants| - 1];
          && 1 + (|c.grants| - 1) * c.batch <= g <= c.partCount
          && (forall k :: g <= k < g + c.batch && k <= c.partCount ==> k in c.signed)
          && UploadedBefore(parts, g - 1))
  }

  /** Uploading the first missing part keeps the grants apart; a new request starts at it. */
  lemma UploadOneKeepsGrants(c: Client, env: Env, parts: seq<UploadPart>, i: nat)
    requires GrantsApart(c, parts) && SignsAllAsked(env)
    requires i < |parts| && !parts[i].uploaded && UploadedBefore(parts, i)
    ensures GrantsApart(UploadOne(c, env, i + 1).0, parts)
    ensures var after := UploadOne(c, env, i + 1).0;
      after.requests == c.requests || after.requests == c.requests + [NextPartNumbers(c, i + 1)]
  {
    if i + 1 !in c.signed {
      NextIsBlock(c, i + 1);
      if c.grants != [] {
        var g := c.grants[|c.grants| - 1];
        assert g <= i + 1;
        assert g + c.batch <= i + 1;
        MulStep(|c.grants|, c.batch);
      }
    }
  }

  lemma {:induction false} PassKeepsGrants(c: Client, env: Env, parts: seq<UploadPart>, i: nat)
    requires GrantsApart(c, parts) && SignsAllAsked(env) && Numbered(parts)
    requires i <= |parts| && UploadedBefore(parts, i)
    ensures var pass := UploadFrom(c, env, parts, i);
      GrantsApart(pass.client, pass.parts) && Numbered(pass.parts)
    decreases |parts| - i
  {
    if i < |parts| {
      if parts[i].uploaded {
        PassKeepsGrants(c, env, parts, i + 1);
      } else {
        UploadOneKeepsGrants(c, env, parts, i);
        var (c1, r) := UploadOne(c, env, i + 1);
        if r.Ok? {
          PassKeepsGrants(c1, env, parts[i := parts[i].(uploaded := true)], i + 1);
        }
      }
    }
  }

  lemma {:induction false} TriesKeepGrants(c: Client, env: Env, parts: seq<UploadPart>, tries: nat)
    requires GrantsApart(c, parts) && SignsAllAsked(env) && Numbered(parts)
    ensures var all := Tries(c, env, parts, tries);
      GrantsApart(all.client, all.parts) && Numbered(all.parts)
  {
    if tries > 0 {
      TriesKeepGrants(c, env, parts, tries - 1);
      var before := Tries(c, env, parts, tries - 1);
      PassKeepsGrants(before.client, env, before.parts, 0);
    }
  }

  /** However many tries it takes, whatever was signed or uploaded at the start, the storage
      grants at most ceil(n / batch) signing requests, and each request made asks for a
      block of consecutive existing parts. */
  lemma SigningIsAmortised(c: Client, env: Env, parts: seq<UploadPart>, tries: nat)
    requires ValidClient(c) && c.partCount == |parts| && c.grants == [] && c.requests == []
    requires SignsAllAsked(env) && Numbered(parts)
    ensures var after := Tries(c, env, parts, tries).client;
      && after.batch == c.batch && after.partCount == |parts|
      && |after.grants| <= CeilDiv(|parts|, c.batch)
      && forall i :: 0 <= i < |after.requests| ==> IsBlock(after.requests[i], c.batch, |parts|)
  {
    TriesKeepGrants(c, env, parts, tries);
    TriesKeepSession(c, env, parts, tries);
    var after := Tries(c, env, parts, tries).client;
    if after.grants != [] {
      CeilDivLeast(|parts|, c.batch, |after.grants| - 1);
    }
  }

  /** Parts a prepared session asks for at a time. */
  function MaxSignParts(partCount: nat): nat {
    Max(1, Min(DEFAULT_MAX_SIGN_PARTS, partCount))
  }

  /** A prepared session, then, never needs more than one grant for every twenty parts. */
  lemma PreparedSessionGrants(c: Client, env: Env, parts: seq<UploadPart>, tries: nat)
    requires 0 < |parts| <= U32_MAX
    requires c == Client(|parts|, MaxSignParts(|parts|), c.signed, [], [], 0)
    requires SignsAllAsked(env) && Numbered(parts)
    ensures |Tries(c, env, parts, tries).client.grants| <= CeilDiv(|parts|, DEFAULT_MAX_SIGN_PARTS)
  {
    SigningIsAmortised(c, env, parts, tries);
    CeilDivLeast(|parts|, c.batch, 1);
    CeilDivLeast(|parts|, DEFAULT_MAX_SIGN_PARTS, 0);
  }

  lemma {:induction false} PassKeepsSession(c: Client, env: Env, parts: seq<UploadPart>, i: nat)
    requires i <= |parts|
    ensures var after := UploadFrom(c, env, parts, i).client;
      after.batch == c.batch && after.partCount == c.partCount
    decreases |parts| - i
  {
    if i < |parts| {
      if parts[i].uploaded {
        PassKeepsSession(c, env, parts, i + 1);
      } else {
        var (c1, r) := UploadOne(c, env, parts[i].partNumber as nat);
        if r.Ok? {
          PassKeepsSession(c1, env, parts[i := parts[i].(uploaded := true)], i + 1);
        }
      }
    }
  }

  lemma {:induction false} TriesKeepSession(c: Client, env: Env, parts: seq<UploadPart>, tries: nat)
    ensures var after := Tries(c, env, parts, tries).client;
      after.batch == c.batch && after.partCount == c.partCount
  {
    if tries > 0 {
      TriesKeepSession(c, env, parts, tries - 1);
      var before := Tries(c, env, parts, tries - 1);
      PassKeepsSession(before.client, env, before.parts, 0);
    }
  }

  // ----- progress -----

  datatype UploadProgress = UploadProgress(uploadedBytes: nat, totalBytes: nat, uploadedParts: nat, totalParts: nat) {
    predicate IsComplete() {
      uploadedBytes == totalBytes && uploadedParts == totalParts
    }
  }

  function UploadedBytes(parts: seq<UploadPart>): nat {
    if parts == [] then 0 else
    var last := parts[|parts| - 1];
    UploadedBytes(parts[..|parts| - 1]) + (if last.uploaded then last.size as nat else 0)
  }

  function UploadedCount(parts: seq<UploadPart>): nat {
    if parts == [] then 0 else
    UploadedCount(parts[..|parts| - 1]) + (if parts[|parts| - 1].uploaded then 1 else 0)
  }

  /** Adds up the uploaded parts; on a planned file the 64-bit sum cannot overflow. */
  method Progress(file: FileDigest, parts: seq<UploadPart>, ghost p: u64) returns (progress: UploadProgress)
    requires IsPlan(parts, file, p)
    ensures progress == UploadProgress(UploadedBytes(parts), file.fileSize as nat, UploadedCount(parts), |parts|)
  {
    var bytes: u64 := 0;
    var count := 0;
    PlanTiles(parts, file, p);
    for i := 0 to |parts|
      invariant bytes as nat == UploadedBytes(parts[..i])
      invariant count == UploadedCount(parts[..i])
    {
      TakeSnoc(parts, i);
      UploadedAtMost(parts, i + 1);
      if parts[i].uploaded {
        bytes := bytes + parts[i].size;
        count := count + 1;
      }
    }
    assert parts[..|parts|] == parts;
    progress := UploadProgress(bytes as nat, file.fileSize as nat, count, |parts|);
  }

  lemma {:induction false} UploadedAtMost(parts: seq<UploadPart>, i: nat)
    requires i <= |parts|
    ensures UploadedBytes(parts[..i]) <= SumSizes(parts[..i]) <= SumSizes(parts)
    decreases |parts| - i
  {
    UploadedBelow(parts[..i]);
    if i < |parts| {
      TakeSnoc(parts, i);
      UploadedAtMost(parts, i + 1);
    } else {
      assert parts[..i] == parts;
    }
  }

  lemma {:induction false} UploadedBelow(parts: seq<UploadPart>)
    ensures UploadedBytes(parts) <= SumSizes(parts)
  {
    if parts != [] {
      UploadedBelow(parts[..|parts| - 1]);
    }
  }

  lemma {:induction false} AllUploadedIff(parts: seq<UploadPart>)
    requires forall i :: 0 <= i < |parts| ==> parts[i].size > 0
    ensures UploadedBytes(parts) <= SumSizes(parts) && UploadedCount(parts) <= |parts|
    ensures UploadedBytes(parts) == SumSizes(parts) <==> forall i :: 0 <= i < |parts| ==> parts[i].uploaded
    ensures UploadedCount(parts) == |parts| <==> forall i :: 0 <= i < |parts| ==> parts[i].uploaded
  {
    if parts != [] {
      var n := |parts| - 1;
      AllUploadedIff(parts[..n]);
      assert forall i :: 0 <= i < n ==> parts[..n][i] == parts[i];
    }
  }

  /** For a planned file the bytes alone tell: they equal the file size exactly when every
      part is marked, and then the progress is complete. */
  lemma CompleteIffAllMarked(file: FileDigest, parts: seq<UploadPart>, p: u64)
    requires IsPlan(parts, file, p)
    ensures UploadedBytes(parts) <= file.fileSize as nat
    ensures UploadedBytes(parts) == file.fileSize as nat <==> forall i :: 0 <= i < |parts| ==> parts[i].uploaded
    ensures UploadProgress(UploadedBytes(parts), file.fileSize as nat, UploadedCount(parts), |parts|).IsComplete()
       <==> forall i :: 0 <= i < |parts| ==> parts[i].uploaded
  {
    PlanTiles(parts, file, p);
    AllUploadedIff(parts);
  }
}
