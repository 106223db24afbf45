/** A map kept in the order of its string keys, as a `BTreeMap` yields it. */
module OrderedMap {
  import opened Common
  import opened Sorting

  type OMap<V> = seq<(string, V)>

  function Get<V>(m: OMap<V>, k: string): Option<V> {
    if m == [] then None
    else if m[0].0 == k then Some(m[0].1)
    else Get(m[1..], k)
  }

  function Put<V>(m: OMap<V>, k: string, v: V): OMap<V> {
    if m == [] then [(k, v)]
    else if m[0].0 == k then [(k, v)] + m[1..]
    else if StringLe(k, m[0].0) then [(k, v)] + m
    else [m[0]] + Put(m[1..], k, v)
  }

  function Del<V>(m: OMap<V>, k: string): OMap<V> {
    if m == [] then []
    else if m[0].0 == k then m[1..]
    else [m[0]] + Del(m[1..], k)
  }

  function Values<V>(m: OMap<V>): (values: seq<V>)
    ensures |values| == |m| && forall i :: 0 <= i < |m| ==> values[i] == m[i].1
  {
    seq(|m|, i requires 0 <= i < |m| => m[i].1)
  }

  /** Keys strictly increase. */
  ghost predicate Ordered<V>(m: OMap<V>) {
    forall i, j :: 0 <= i < j < |m| ==> m[i].0 != m[j].0 && StringLe(m[i].0, m[j].0)
  }

  lemma {:induction false} GetMember<V>(m: OMap<V>, k: string)
    requires Ordered(m)
    ensures Get(m, k).Some? <==> exists i :: 0 <= i < |m| && m[i].0 == k
    ensures forall i :: 0 <= i < |m| && m[i].0 == k ==> Get(m, k) == Some(m[i].1)
  {
    if m != [] {
      GetMember(m[1..], k);
      if Get(m, k).Some? && m[0].0 != k {
        var i :| 0 <= i < |m[1..]| && m[1..][i].0 == k;
        assert m[i + 1].0 == k;
      }
      forall i | 0 <= i < |m| && m[i].0 == k ensures Get(m, k) == Some(m[i].1) {
        if i > 0 {
          assert m[1..][i - 1] == m[i];
          assert m[0].0 != m[i].0;
        }
      }
    }
  }

  lemma {:induction false} PutKeys<V>(m: OMap<V>, k: string, v: V)
    ensures forall e :: e in Put(m, k, v) ==> e == (k, v) || e in m
  {
    if m != [] {
      PutKeys(m[1..], k, v);
    }
  }

  /** A key below all others goes in front. */
  lemma FrontOrdered<V>(e: (string, V), m: OMap<V>)
    requires Ordered(m)
    requires forall x :: x in m ==> e.0 != x.0 && StringLe(e.0, x.0)
    ensures Ordered([e] + m)
  {
    assert forall j :: 0 <= j < |m| ==> m[j] in m;
  }

  lemma BelowAll<V>(k: string, m: OMap<V>)
    requires Ordered(m) && m != [] && m[0].0 != k && StringLe(k, m[0].0)
    ensures forall x :: x in m ==> k != x.0 && StringLe(k, x.0)
  {
    forall x | x in m ensures k != x.0 && StringLe(k, x.0) {
      var j :| 0 <= j < |m| && m[j] == x;
      if j > 0 {
        StringLeTransitive(k, m[0].0, m[j].0);
        if k == m[j].0 {
          StringLeAntisymmetric(m[0].0, m[j].0);
        }
      }
    }
  }

  lemma HeadBelow<V>(m: OMap<V>)
    requires Ordered(m) && m != []
    ensures Ordered(m[1..])
    ensures forall x :: x in m[1..] ==> m[0].0 != x.0 && StringLe(m[0].0, x.0)
  {
    forall x | x in m[1..] ensures m[0].0 != x.0 && StringLe(m[0].0, x.0) {
      var j :| 0 <= j < |m[1..]| && m[1..][j] == x;
      assert m[j + 1] == x;
    }
  }

  lemma {:induction false} PutOrdered<V>(m: OMap<V>, k: string, v: V)
    requires Ordered(m)
    ensures Ordered(Put(m, k, v))
  {
    if m != [] {
      HeadBelow(m);
      if m[0].0 == k {
        FrontOrdered((k, v), m[1..]);
      } else if StringLe(k, m[0].0) {
        BelowAll(k, m);
        FrontOrdered((k, v), m);
      } else {
        StringLeTotal(k, m[0].0);
        PutOrdered(m[1..], k, v);
        PutKeys(m[1..], k, v);
        FrontOrdered(m[0], Put(m[1..], k, v));
      }
    }
  }

  lemma {:induction false} PutGet<V>(m: OMap<V>, k: string, v: V, x: string)
    requires Ordered(m)
    ensures Get(Put(m, k, v), x) == if x == k then Some(v) else Get(m, x)
  {
    if m != [] && m[0].0 != k && !StringLe(k, m[0].0) {
      PutGet(m[1..], k, v, x);
    }
  }

  lemma {:induction false} DelSubset<V>(m: OMap<V>, k: string)
    ensures forall e :: e in Del(m, k) ==> e in m
  {
    if m != [] {
      DelSubset(m[1..], k);
    }
  }

  lemma {:induction false} DelOrdered<V>(m: OMap<V>, k: string)
    requires Ordered(m)
    ensures Ordered(Del(m, k))
  {
    if m != [] && m[0].0 != k {
      HeadBelow(m);
      DelOrdered(m[1..], k);
      DelSubset(m[1..], k);
      FrontOrdered(m[0], Del(m[1..], k));
    }
  }

  lemma {:induction false} DelGet<V>(m: OMap<V>, k: string, x: string)
    requires Ordered(m)
    ensures Get(Del(m, k), x) == if x == k then None else Get(m, x)
  {
    if m != [] {
      if m[0].0 == k {
        GetMember(m[1..], k);
        forall i | 0 <= i < |m[1..]| ensures m[1..][i].0 != k {
          assert m[i + 1].0 != m[0].0;
        }
      } else {
        DelGet(m[1..], k, x);
      }
    }
  }
}
