/** Sums over finite maps: the arithmetic behind storage sizes and total deposits. */
module Sums {

  ghost function Total<K(!new)>(m: map<K, int>): int
    decreases |m|
  {
    if m == map[] then 0
    else
      var k :| k in m;
      RemoveShrinks(m, k);
      m[k] + Total(m - {k})
  }

  lemma {:induction false} RemoveShrinks<K>(m: map<K, int>, k: K)
    requires k in m
    ensures |m - {k}| == |m| - 1
  {
    assert (m - {k}).Keys == m.Keys - {k};
  }

  /** Any key can be split off first: the sum does not depend on the order of summation. */
  lemma {:induction false} Split<K(!new)>(m: map<K, int>, k: K)
    requires k in m
    ensures Total(m) == m[k] + Total(m - {k})
    decreases |m|
  {
    var first :| first in m && Total(m) == m[first] + Total(m - {first});
    if first != k {
      RemoveShrinks(m, first);
      RemoveShrinks(m, k);
      Split(m - {first}, k);
      Split(m - {k}, first);
      assert m - {first} - {k} == m - {k} - {first};
    }
  }

  function At<K>(m: map<K, int>, k: K): int {
    if k in m then m[k] else 0
  }

  /** Writing one key moves the sum by exactly the change at that key. */
  lemma {:induction false} Write<K(!new)>(m: map<K, int>, k: K, v: int)
    ensures Total(m[k := v]) == Total(m) - At(m, k) + v
  {
    Split(m[k := v], k);
    if k in m {
      Split(m, k);
      assert m[k := v] - {k} == m - {k};
    } else {
      assert m[k := v] - {k} == m;
    }
  }

  /** Removing one key takes exactly its value off the sum. */
  lemma {:induction false} Remove<K(!new)>(m: map<K, int>, k: K)
    ensures Total(m - {k}) == Total(m) - At(m, k)
  {
    if k in m {
      Split(m, k);
    } else {
      assert m - {k} == m;
    }
  }

  lemma {:induction false} Distribute(n: nat, bound: nat)
    ensures n * bound + bound == (n + 1) * bound
  {
  }

  /** A sum of values in `0..=bound` lies in `0..=|m| * bound`. */
  lemma {:induction false} Bounded<K(!new)>(m: map<K, int>, bound: nat)
    requires forall k :: k in m ==> 0 <= m[k] <= bound
    ensures 0 <= Total(m) <= |m| * bound
    decreases |m|
  {
    if m == map[] {
    } else {
      var k :| k in m && Total(m) == m[k] + Total(m - {k});
      RemoveShrinks(m, k);
      Bounded(m - {k}, bound);
      Distribute(|m| - 1, bound);
    }
  }

  /** A sum of non-negative values is at least each of them, and zero only if all are. */
  lemma {:induction false} AtLeastEach<K(!new)>(m: map<K, int>, k: K)
    requires forall x :: x in m ==> 0 <= m[x]
    ensures 0 <= At(m, k) <= Total(m)
  {
    NonNegative(m - {k});
    Remove(m, k);
  }

  lemma {:induction false} NonNegative<K(!new)>(m: map<K, int>)
    requires forall k :: k in m ==> 0 <= m[k]
    ensures 0 <= Total(m)
    decreases |m|
  {
    if m == map[] {
    } else {
      var k :| k in m && Total(m) == m[k] + Total(m - {k});
      RemoveShrinks(m, k);
      NonNegative(m - {k});
    }
  }

  lemma {:induction false} AllZero<K(!new)>(m: map<K, int>)
    requires forall k :: k in m ==> m[k] == 0
    ensures Total(m) == 0
    decreases |m|
  {
    if m == map[] {
    } else {
      var k :| k in m && Total(m) == m[k] + Total(m - {k});
      RemoveShrinks(m, k);
      AllZero(m - {k});
    }
  }
}
