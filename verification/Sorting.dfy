/** Sorting by a comparison function.

    `sort_by` of the standard library is a stable sort; `SortBy` is that sort.  What the
    rest of the model needs from it is that a list whose elements are pairwise ordered one
    way only has exactly one sorted arrangement, whatever order it started in. */
module Sorting {
  import opened Common

  ghost predicate TotalPreorder<T(!new)>(le: (T, T) -> bool) {
    && (forall a, b :: le(a, b) || le(b, a))
    && (forall a, b, c :: le(a, b) && le(b, c) ==> le(a, c))
  }

  /** No two different elements of `s` tie. */
  ghost predicate NoTies<T>(le: (T, T) -> bool, s: seq<T>) {
    forall a, b :: a in s && b in s && le(a, b) && le(b, a) ==> a == b
  }

  ghost predicate Sorted<T>(le: (T, T) -> bool, s: seq<T>) {
    forall i, j :: 0 <= i < j < |s| ==> le(s[i], s[j])
  }

  function Insert<T>(x: T, s: seq<T>, le: (T, T) -> bool): (r: seq<T>)
    ensures multiset(r) == multiset([x]) + multiset(s)
  {
    if s == [] || le(x, s[0]) then
      [x] + s
    else
      assert s == [s[0]] + s[1..];
      [s[0]] + Insert(x, s[1..], le)
  }

  function SortBy<T>(s: seq<T>, le: (T, T) -> bool): (r: seq<T>)
    ensures multiset(r) == multiset(s)
  {
    if s == [] then [] else
    assert s == [s[0]] + s[1..];
    Insert(s[0], SortBy(s[1..], le), le)
  }

  lemma {:induction false} InsertSorted<T(!new)>(x: T, s: seq<T>, le: (T, T) -> bool)
    requires TotalPreorder(le) && Sorted(le, s)
    ensures Sorted(le, Insert(x, s, le))
  {
    if s != [] && !le(x, s[0]) {
      InsertSorted(x, s[1..], le);
      var rest := Insert(x, s[1..], le);
      forall y | y in rest ensures le(s[0], y) {
        assert y in multiset(rest);
        assert y == x || y in s[1..];
      }
    }
  }

  lemma {:induction false} SortBySorted<T(!new)>(s: seq<T>, le: (T, T) -> bool)
    requires TotalPreorder(le)
    ensures Sorted(le, SortBy(s, le))
  {
    if s != [] {
      SortBySorted(s[1..], le);
      InsertSorted(s[0], SortBy(s[1..], le), le);
    }
  }

  lemma SameMembers<T>(a: seq<T>, b: seq<T>)
    requires multiset(a) == multiset(b)
    ensures |a| == |b|
    ensures forall x :: x in a <==> x in b
  {
    assert |multiset(a)| == |a| && |multiset(b)| == |b|;
    forall x ensures x in a <==> x in b {
      assert x in a <==> x in multiset(a);
      assert x in b <==> x in multiset(b);
    }
  }

  /** Two sorted arrangements of the same elements are equal when nothing ties. */
  lemma {:induction false} SortedUnique<T(!new)>(a: seq<T>, b: seq<T>, le: (T, T) -> bool)
    requires TotalPreorder(le) && NoTies(le, a)
    requires multiset(a) == multiset(b)
    requires Sorted(le, a) && Sorted(le, b)
    ensures a == b
  {
    SameMembers(a, b);
    if a != [] {
      SortedHeadsEqual(a, b, le);
      RestMembers(a);
      RestMembers(b);
      SortedUnique(a[1..], b[1..], le);
    }
  }

  lemma SortedHeadsEqual<T(!new)>(a: seq<T>, b: seq<T>, le: (T, T) -> bool)
    requires TotalPreorder(le) && NoTies(le, a) && Sorted(le, a) && Sorted(le, b)
    requires a != [] && b != [] && forall x :: x in a <==> x in b
    ensures a[0] == b[0]
  {
    assert a[0] in b && b[0] in a;
    assert le(a[0], b[0]) && le(b[0], a[0]);
  }

  lemma RestMembers<T>(s: seq<T>)
    requires s != []
    ensures multiset(s[1..]) == multiset(s) - multiset{s[0]}
  {
    assert s == [s[0]] + s[1..];
  }

  /** The order the other way round. */
  ghost predicate Flipped<T(!new)>(le: (T, T) -> bool, ge: (T, T) -> bool) {
    forall a, b :: ge(a, b) <==> le(b, a)
  }

  /** Sorting upwards and then reversing is sorting downwards, even from a different
      starting arrangement. */
  lemma ReverseOfSort<T(!new)>(a: seq<T>, b: seq<T>, le: (T, T) -> bool, ge: (T, T) -> bool)
    requires TotalPreorder(le) && NoTies(le, a) && Flipped(le, ge)
    requires multiset(a) == multiset(b)
    ensures Reverse(SortBy(a, le)) == SortBy(b, ge)
  {
    SortBySorted(a, le);
    assert TotalPreorder(ge);
    SortBySorted(b, ge);
    var up := SortBy(a, le);
    ReverseMultiset(up);
    SameMembers(up, a);
    SameMembers(Reverse(up), a);
    assert Sorted(ge, Reverse(up));
    SortedUnique(Reverse(up), SortBy(b, ge), ge);
  }

  // ----- strings -----

  /** Byte-wise order of strings, which for UTF-8 is the order of their characters. */
  predicate StringLe(a: string, b: string) {
    a == [] || (b != [] && (a[0] < b[0] || (a[0] == b[0] && StringLe(a[1..], b[1..]))))
  }

  /** `a` and `b` first differ at `i`, where `a` has the smaller character. */
  predicate DiffersBelow(a: string, b: string, i: nat) {
    i < |a| && i < |b| && a[..i] == b[..i] && a[i] < b[i]
  }

  lemma HeadsDiffer(a: string, b: string, i: nat)
    requires 0 < i <= |a| && i <= |b| && a[0] != b[0]
    ensures a[..i] != b[..i]
  {
    assert a[..i][0] == a[0] && b[..i][0] == b[0];
  }

  /** The order of a dictionary: a string comes before those it starts, and otherwise the first
      difference decides. */
  lemma {:induction false} StringLeIff(a: string, b: string)
    ensures StringLe(a, b) <==> a <= b || exists i :: DiffersBelow(a, b, i)
  {
    if a != [] && b != [] {
      assert a == [a[0]] + a[1..] && b == [b[0]] + b[1..];
      if a[0] < b[0] {
        assert DiffersBelow(a, b, 0);
      } else if a[0] == b[0] {
        StringLeIff(a[1..], b[1..]);
        if i: nat :| DiffersBelow(a[1..], b[1..], i) {
          assert a[..i + 1] == [a[0]] + a[1..][..i] && b[..i + 1] == [b[0]] + b[1..][..i];
          assert DiffersBelow(a, b, i + 1);
        }
        if i: nat :| DiffersBelow(a, b, i) && i > 0 {
          assert a[1..][..i - 1] == a[..i][1..] && b[1..][..i - 1] == b[..i][1..];
          assert DiffersBelow(a[1..], b[1..], i - 1);
        }
      } else {
        forall i: nat ensures !DiffersBelow(a, b, i) {
          if 0 < i <= |a| && i <= |b| {
            HeadsDiffer(a, b, i);
          }
        }
      }
    }
  }

  lemma {:induction false} StringLeTotal(a: string, b: string)
    ensures StringLe(a, b) || StringLe(b, a)
  {
    if a != [] && b != [] && a[0] == b[0] {
      StringLeTotal(a[1..], b[1..]);
    }
  }

  lemma {:induction false} StringLeTransitive(a: string, b: string, c: string)
    requires StringLe(a, b) && StringLe(b, c)
    ensures StringLe(a, c)
  {
    if a != [] && a[0] == b[0] == c[0] {
      StringLeTransitive(a[1..], b[1..], c[1..]);
    }
  }

  lemma {:induction false} StringLeAntisymmetric(a: string, b: string)
    requires StringLe(a, b) && StringLe(b, a)
    ensures a == b
  {
    if a != [] {
      StringLeAntisymmetric(a[1..], b[1..]);
      assert a == [a[0]] + a[1..] && b == [b[0]] + b[1..];
    }
  }
}
