/** Values and sequence helpers shared by every part of the model.

    `Error` keeps the class of an error and drops its text.  The machine integers are
    newtypes, so each arithmetic step the program takes on them carries its own
    proof obligation that the value still fits. */
module Common {

  const U32_MAX: nat := 0xFFFF_FFFF
  const U64_MAX: nat := 0xFFFF_FFFF_FFFF_FFFF

  newtype u32 = x: int | 0 <= x <= 0xFFFF_FFFF
  newtype u64 = x: int | 0 <= x <= 0xFFFF_FFFF_FFFF_FFFF

  const TWO_TO_32: nat := 0x1_0000_0000

  /** 32-bit arithmetic as compiled without overflow checks. */
  function Wrap32(n: nat): u32 {
    (n % TWO_TO_32) as u32
  }

  lemma WrapAdd(a: nat, b: nat)
    ensures Wrap32(Wrap32(a) as nat + b) == Wrap32(a + b)
  {
  }

  /** A number that grows moves its low 32 bits exactly if it grows by no multiple of 2^32. */
  lemma WrapMovesIff(before: nat, after: nat)
    requires before <= after
    ensures Wrap32(before) != Wrap32(after) <==> (after - before) % TWO_TO_32 != 0
  {
    assert after == before + (after - before);
    WrapAdd(before, after - before);
    if (after - before) % TWO_TO_32 == 0 {
      var k := (after - before) / TWO_TO_32;
      assert after == before + k * TWO_TO_32;
    }
  }

  lemma WrapFits(n: nat)
    ensures Wrap32(n) as nat == n <==> n <= U32_MAX
  {
  }

  datatype Error = Args | SdkInternal | Network | External

  datatype Option<+T> = None | Some(value: T)

  datatype Result<+T> = Ok(value: T) | Err(error: Error) {
    predicate IsFailure() { Err? }

    function PropagateFailure<U>(): Result<U>
      requires Err?
    {
      Err(error)
    }

    function Extract(): T
      requires Ok?
    {
      value
    }
  }

  /** A result without a payload. */
  datatype Unit = Unit

  function Lookup<K, V>(m: map<K, V>, k: K): Option<V> {
    if k in m then Some(m[k]) else None
  }

  /** The keys of a scope: those whose first part is the given owner, group or conversation. */
  function KeysUnder(first: string): ((string, string)) -> bool {
    (k: (string, string)) => k.0 == first
  }

  function Elems<T>(s: seq<T>): set<T> {
    set x | x in s
  }

  predicate NoDup<T(==)>(s: seq<T>) {
    forall i, j :: 0 <= i < j < |s| ==> s[i] != s[j]
  }

  /** The elements of `s` that satisfy `p`, in order.  Recursion is on the last element, as
      the loops that build such a list go from the front. */
  function Filter<T>(s: seq<T>, p: T -> bool): seq<T> {
    if s == [] then [] else
    var n := |s| - 1;
    Filter(s[..n], p) + (if p(s[n]) then [s[n]] else [])
  }

  function Reverse<T>(s: seq<T>): (r: seq<T>)
    ensures |r| == |s|
    ensures forall i :: 0 <= i < |s| ==> r[i] == s[|s| - 1 - i]
  {
    seq(|s|, i requires 0 <= i < |s| => s[|s| - 1 - i])
  }

  function Max(a: int, b: int): int {
    if a < b then b else a
  }

  function Min(a: int, b: int): int {
    if a < b then a else b
  }

  lemma MulMonotonic(a: nat, b: nat, p: nat)
    requires a <= b
    ensures a * p <= b * p && p * a <= p * b
  {
  }

  lemma MulStep(n: nat, p: nat)
    requires n > 0
    ensures n * p == (n - 1) * p + p
  {
  }

  lemma TakeSnoc<T>(s: seq<T>, i: nat)
    requires i < |s|
    ensures s[..i + 1] == s[..i] + [s[i]]
    ensures s[..i + 1][..i] == s[..i]
  {
  }

  lemma {:induction false} ReverseMultiset<T>(s: seq<T>)
    ensures multiset(Reverse(s)) == multiset(s)
  {
    if s == [] {
      assert Reverse(s) == [];
    } else {
      ReverseMultiset(s[1..]);
      assert s == [s[0]] + s[1..];
      assert Reverse(s) == Reverse(s[1..]) + [s[0]];
    }
  }

  lemma FilterSnoc<T>(s: seq<T>, x: T, p: T -> bool)
    ensures Filter(s + [x], p) == Filter(s, p) + (if p(x) then [x] else [])
  {
    assert (s + [x])[..|s + [x]| - 1] == s;
  }

  lemma {:induction false} FilterAppend<T>(a: seq<T>, b: seq<T>, p: T -> bool)
    ensures Filter(a + b, p) == Filter(a, p) + Filter(b, p)
  {
    if b == [] {
      assert a + b == a;
    } else {
      var n := |b| - 1;
      FilterAppend(a, b[..n], p);
      FilterSnoc(a + b[..n], b[n], p);
      assert a + b == (a + b[..n]) + [b[n]];
    }
  }

  lemma {:induction false} FilterMembers<T(!new)>(s: seq<T>, p: T -> bool)
    ensures forall x :: x in Filter(s, p) <==> x in s && p(x)
  {
    if s != [] {
      var n := |s| - 1;
      FilterMembers(s[..n], p);
      assert s == s[..n] + [s[n]];
    }
  }

  /** `picked` is made of the elements of `s` at the places `at`, which go upwards. */
  ghost predicate PicksInOrder<T>(picked: seq<T>, s: seq<T>, at: seq<nat>) {
    && |at| == |picked|
    && (forall i :: 0 <= i < |at| ==> at[i] < |s| && picked[i] == s[at[i]])
    && (forall i, j :: 0 <= i < j < |at| ==> at[i] < at[j])
  }

  lemma PicksLonger<T>(picked: seq<T>, s: seq<T>, n: nat, at: seq<nat>)
    requires n <= |s| && PicksInOrder(picked, s[..n], at)
    ensures PicksInOrder(picked, s, at)
    ensures n < |s| ==> PicksInOrder(picked + [s[n]], s, at + [n])
  {
  }

  /** Filtering picks every element that satisfies `p` and no other, in order. */
  lemma {:induction false} FilterPlaces<T>(s: seq<T>, p: T -> bool) returns (at: seq<nat>)
    ensures PicksInOrder(Filter(s, p), s, at)
    ensures forall k :: k in at <==> 0 <= k < |s| && p(s[k])
  {
    at := [];
    if s != [] {
      var n := |s| - 1;
      var before := FilterPlaces(s[..n], p);
      PicksLonger(Filter(s[..n], p), s, n, before);
      at := before + (if p(s[n]) then [n] else []);
      assert forall k :: k in at <==> k in before || (k == n && p(s[n]));
      assert forall k :: 0 <= k < n ==> s[..n][k] == s[k];
      assert Filter(s[..n], p) + [] == Filter(s[..n], p) && before + [] == before;
    }
  }

  lemma {:induction false} FilterNoDup<T(!new)>(s: seq<T>, p: T -> bool)
    requires NoDup(s)
    ensures NoDup(Filter(s, p))
  {
    if s != [] {
      FilterNoDup(s[..|s| - 1], p);
      FilterMembers(s[..|s| - 1], p);
    }
  }

  lemma {:induction false} FilterEverything<T>(s: seq<T>, p: T -> bool)
    requires forall x :: x in s ==> p(x)
    ensures Filter(s, p) == s
  {
    if s != [] {
      var n := |s| - 1;
      assert s == s[..n] + [s[n]];
      FilterEverything(s[..n], p);
    }
  }

  lemma {:induction false} FilterNothing<T>(s: seq<T>, p: T -> bool)
    requires forall x :: x in s ==> !p(x)
    ensures Filter(s, p) == []
  {
    if s != [] {
      var n := |s| - 1;
      assert s == s[..n] + [s[n]];
      FilterNothing(s[..n], p);
    }
  }

  /** A list rearranged into the elements that satisfy `p` and then the others. */
  lemma {:induction false} FilterSplit<T>(s: seq<T>, p: T -> bool, others: T -> bool)
    requires forall x :: x in s ==> (others(x) <==> !p(x))
    ensures multiset(Filter(s, p) + Filter(s, others)) == multiset(s)
  {
    if s != [] {
      var n := |s| - 1;
      assert s == s[..n] + [s[n]];
      FilterSplit(s[..n], p, others);
    }
  }

  lemma NoDupSnoc<T>(s: seq<T>, x: T)
    requires NoDup(s) && x !in s
    ensures NoDup(s + [x])
  {
  }

  lemma RepeatCount<T>(s: seq<T>)
    ensures forall i, j :: 0 <= i < j < |s| && s[i] == s[j] ==> multiset(s)[s[i]] >= 2
  {
    forall i, j | 0 <= i < j < |s| && s[i] == s[j] ensures multiset(s)[s[i]] >= 2 {
      assert s == s[..i] + [s[i]] + s[i + 1..j] + [s[j]] + s[j + 1..];
    }
  }

  lemma NoDupFromMultiset<T>(a: seq<T>, b: seq<T>)
    requires multiset(a) == multiset(b) && NoDup(a)
    ensures NoDup(b) && Elems(a) == Elems(b)
  {
    forall x | x in b ensures multiset(b)[x] <= 1 {
      NoDupCount(a, x);
    }
    RepeatCount(b);
    forall x ensures x in Elems(a) <==> x in Elems(b) {
      assert x in a <==> x in multiset(a);
      assert x in b <==> x in multiset(b);
    }
  }

  lemma {:induction false} NoDupCount<T>(s: seq<T>, x: T)
    requires NoDup(s)
    ensures multiset(s)[x] <= 1
  {
    if s != [] {
      var n := |s| - 1;
      NoDupCount(s[..n], x);
      assert s == s[..n] + [s[n]];
    }
  }

  /** The parts of a list without repeats have none and share nothing. */
  lemma NoDupParts<T>(a: seq<T>, b: seq<T>)
    requires NoDup(a + b)
    ensures NoDup(a) && NoDup(b) && forall x :: x in a ==> x !in b
  {
    forall i, j | 0 <= i < j < |a| ensures a[i] != a[j] {
      assert (a + b)[i] != (a + b)[j];
    }
    forall i, j | 0 <= i < j < |b| ensures b[i] != b[j] {
      assert (a + b)[|a| + i] != (a + b)[|a| + j];
    }
    forall i, j | 0 <= i < |a| && 0 <= j < |b| ensures a[i] != b[j] {
      assert (a + b)[i] != (a + b)[|a| + j];
    }
  }

  lemma SameElemsSameMultiset<T>(a: seq<T>, b: seq<T>)
    requires NoDup(a) && NoDup(b)
    requires forall x :: x in a <==> x in b
    ensures multiset(a) == multiset(b)
  {
    forall x ensures multiset(a)[x] == multiset(b)[x] {
      NoDupCount(a, x);
      NoDupCount(b, x);
      assert x in a <==> x in multiset(a);
      assert x in b <==> x in multiset(b);
    }
  }
}
