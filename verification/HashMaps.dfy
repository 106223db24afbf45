/** Listing the entries of a hash map, whose iteration order nobody promises. */
module HashMaps {
  import opened Common
  import Sorting
  import SyncDiff

  /** Collects the values that satisfy `p`, in whatever order the map yields them. */
  method CollectWhere<K(==), T(==, !new)>(m: map<K, T>, ghost fk: T -> K, ghost inScope: K -> bool, p: T -> bool)
    returns (found: seq<T>)
    requires SyncDiff.Keyed(m, fk)
    requires forall x :: p(x) <==> inScope(fk(x))
    ensures SyncDiff.Enumerates(found, m, fk, inScope)
  {
    found := [];
    var rest := m.Keys;
    while rest != {}
      invariant rest <= m.Keys
      invariant NoDup(found)
      invariant forall x :: x in found ==> fk(x) in m && fk(x) !in rest && m[fk(x)] == x && inScope(fk(x))
      invariant forall k :: k in m && k !in rest && inScope(k) ==> m[k] in found
    {
      var k :| k in rest;
      rest := rest - {k};
      assert fk(m[k]) == k;
      if p(m[k]) {
        NoDupSnoc(found, m[k]);
        found := found + [m[k]];
      }
    }
  }

  /** Rearranging a listing keeps it one. */
  lemma EnumeratesRearranged<K, T(!new)>(a: seq<T>, b: seq<T>, m: map<K, T>, fk: T -> K, inScope: K -> bool)
    requires SyncDiff.Enumerates(a, m, fk, inScope) && multiset(a) == multiset(b)
    ensures SyncDiff.Enumerates(b, m, fk, inScope)
  {
    NoDupFromMultiset(a, b);
    Sorting.SameMembers(a, b);
  }

  /** Any two listings of the same scope rearrange each other. */
  lemma ListingsAgree<K, T(!new)>(a: seq<T>, b: seq<T>, m: map<K, T>, fk: T -> K, inScope: K -> bool)
    requires SyncDiff.Enumerates(a, m, fk, inScope) && SyncDiff.Enumerates(b, m, fk, inScope)
    ensures multiset(a) == multiset(b)
  {
    SameElemsSameMultiset(a, b);
  }
}
