/** Sums of the values of a map over its keys, and how single updates change them. */
module Sums {
  /** The sum of `m`'s values. */
  ghost function Total<K>(m: map<K, nat>): nat
    decreases |m|
  {
    if m == map[] then 0
    else
      var k :| k in m;
      m[k] + Total(m - {k})
  }

  /** The choice of key in `Total` does not matter. */
  lemma {:induction false} TotalRemove<K>(m: map<K, nat>, k: K)
    requires k in m
    ensures Total(m) == m[k] + Total(m - {k})
    decreases |m|
  {
    var j :| j in m && Total(m) == m[j] + Total(m - {j});
    if j != k {
      TotalRemove(m - {j}, k);
      TotalRemove(m - {k}, j);
      assert m - {j} - {k} == m - {k} - {j};
    }
  }

  lemma TotalInsert<K>(m: map<K, nat>, k: K, v: nat)
    requires k !in m
    ensures Total(m[k := v]) == v + Total(m)
  {
    TotalRemove(m[k := v], k);
    assert m[k := v] - {k} == m;
  }

  lemma TotalUpdate<K>(m: map<K, nat>, k: K, v: nat)
    requires k in m
    ensures Total(m[k := v]) == Total(m) - m[k] + v
  {
    TotalRemove(m, k);
    TotalRemove(m[k := v], k);
    assert m[k := v] - {k} == m - {k};
  }

  /** A pointwise smaller map has a smaller sum. */
  lemma {:induction false} TotalMonotone<K>(m: map<K, nat>, n: map<K, nat>)
    requires forall k :: k in m ==> k in n && m[k] <= n[k]
    ensures Total(m) <= Total(n)
    decreases |m|
  {
    if m != map[] {
      var k :| k in m;
      TotalRemove(m, k);
      TotalRemove(n, k);
      TotalMonotone(m - {k}, n - {k});
    }
  }

  lemma EmptyTotal<K>(m: map<K, nat>)
    requires m == map[]
    ensures Total(m) == 0
  {
  }

  ghost function Restrict<K>(m: map<K, nat>, keys: set<K>): map<K, nat> {
    map k | k in m && k in keys :: m[k]
  }

  /** The sum splits along any set of keys. */
  lemma {:induction false} TotalSplit<K>(m: map<K, nat>, keys: set<K>)
    ensures Total(m) == Total(m - keys) + Total(Restrict(m, keys))
    decreases |m|
  {
    hide Total;
    if k :| k in m && k in keys {
      var rest := m - {k};
      TotalRemove(m, k);
      assert Restrict(m, keys)[k] == m[k];
      TotalRemove(Restrict(m, keys), k);
      TotalSplit(rest, keys);
      assert Restrict(rest, keys) == Restrict(m, keys) - {k};
      assert rest - keys == m - keys;
    } else {
      assert Restrict(m, keys) == map[];
      assert m - keys == m;
      EmptyTotal(Restrict(m, keys));
    }
  }

  /** A subset is no larger. */
  lemma {:induction false} SubsetSize<T>(a: set<T>, b: set<T>)
    requires a <= b
    ensures |a| <= |b|
    decreases a
  {
    if x :| x in a {
      SubsetSize(a - {x}, b - {x});
    }
  }
}
