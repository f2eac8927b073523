/** Sums over sets and maps, which do not depend on the order Go's iteration takes. */
module Sums {
  /** The sum of f over a set, in whatever order its elements are taken. */
  ghost function SetSum<K>(keys: set<K>, f: K -> real): real
    decreases |keys|
  {
    if keys == {} then 0.0 else
      var k :| k in keys;
      f(k) + SetSum(keys - {k}, f)
  }

  /** Any element may be taken first. */
  lemma {:induction false} TakeAny<K>(keys: set<K>, f: K -> real, k: K)
    requires k in keys
    ensures SetSum(keys, f) == f(k) + SetSum(keys - {k}, f)
    decreases |keys|
  {
    var first :| first in keys && SetSum(keys, f) == f(first) + SetSum(keys - {first}, f);
    if first != k {
      TakeAny(keys - {first}, f, k);
      TakeAny(keys - {k}, f, first);
      assert keys - {first} - {k} == keys - {k} - {first};
    }
  }

  lemma {:induction false} SumOfSame<K>(keys: set<K>, f: K -> real, g: K -> real)
    requires forall k | k in keys :: f(k) == g(k)
    ensures SetSum(keys, f) == SetSum(keys, g)
    decreases |keys|
  {
    if keys != {} {
      var k :| k in keys;
      TakeAny(keys, f, k);
      TakeAny(keys, g, k);
      SumOfSame(keys - {k}, f, g);
    }
  }

  ghost function MapSum<K, V>(m: map<K, V>, f: (K, V) -> real): real {
    SetSum(m.Keys, (k: K) => if k in m then f(k, m[k]) else 0.0)
  }

  lemma EmptyMapSum<K, V>(f: (K, V) -> real)
    ensures MapSum(map[], f) == 0.0
  {
  }

  /** Writing one key changes a sum by that key's part. */
  lemma MapSumUpdate<K, V>(m: map<K, V>, k: K, v: V, f: (K, V) -> real)
    ensures MapSum(m[k := v], f) == MapSum(m, f) - (if k in m then f(k, m[k]) else 0.0) + f(k, v)
  {
    var next := m[k := v];
    var g := (x: K) => if x in m then f(x, m[x]) else 0.0;
    var h := (x: K) => if x in next then f(x, next[x]) else 0.0;
    TakeAny(next.Keys, h, k);
    assert next.Keys - {k} == m.Keys - {k};
    SumOfSame(m.Keys - {k}, g, h);
    if k in m {
      TakeAny(m.Keys, g, k);
    } else {
      assert m.Keys - {k} == m.Keys;
    }
  }

  /** A map's sum is the sum over its keys of any function that agrees with it there. */
  lemma SumOverKeys<K, V>(m: map<K, V>, f: (K, V) -> real, g: K -> real)
    requires forall k | k in m :: g(k) == f(k, m[k])
    ensures SetSum(m.Keys, g) == MapSum(m, f)
  {
    SumOfSame(m.Keys, g, (k: K) => if k in m then f(k, m[k]) else 0.0);
  }
}
