/** The lexicographic order of `Vec<u8>` keys, the order in which a `BTreeMap` is encoded. */
module ByteOrder {
  import opened Primitives

  predicate Below(a: Bytes, b: Bytes) {
    if b == [] then false
    else if a == [] then true
    else a[0] < b[0] || (a[0] == b[0] && Below(a[1..], b[1..]))
  }

  /** At `n` the first bytes that differ, and `a` has the smaller one. */
  ghost predicate SmallerAt(a: Bytes, b: Bytes, n: nat) {
    n < |a| && n < |b| && a[..n] == b[..n] && a[n] < b[n]
  }

  /** The order of byte strings: a proper prefix comes first, otherwise the first byte that differs decides. */
  lemma {:induction false} Lexicographic(a: Bytes, b: Bytes)
    ensures Below(a, b) <==> (|a| < |b| && a == b[..|a|]) || exists n: nat :: SmallerAt(a, b, n)
  {
    if a == [] || b == [] {
    } else if a[0] != b[0] {
      assert a[0] < b[0] ==> SmallerAt(a, b, 0);
      forall n: nat | 0 < n <= |a| && n <= |b| ensures a[..n] != b[..n] {
        assert a[..n][0] != b[..n][0];
      }
      assert a[..|a|] == a;
    } else {
      var a', b' := a[1..], b[1..];
      assert a == [a[0]] + a' && b == [b[0]] + b';
      Lexicographic(a', b');
      SharedFirst(a, b);
    }
  }

  /** A shared first byte does not matter. */
  lemma {:induction false} SharedFirst(a: Bytes, b: Bytes)
    requires a != [] && b != [] && a[0] == b[0]
    ensures (|a| < |b| && a == b[..|a|]) <==> (|a[1..]| < |b[1..]| && a[1..] == b[1..][..|a[1..]|])
    ensures (exists n: nat :: SmallerAt(a, b, n)) <==> (exists n: nat :: SmallerAt(a[1..], b[1..], n))
  {
    var a', b' := a[1..], b[1..];
    assert a == [a[0]] + a' && b == [b[0]] + b';
    if |a| < |b| {
      assert b[..|a|] == [b[0]] + b'[..|a'|];
    }
    forall n: nat | SmallerAt(a', b', n) ensures SmallerAt(a, b, n + 1) {
      assert a[..n + 1] == [a[0]] + a'[..n] && b[..n + 1] == [b[0]] + b'[..n];
    }
    forall n: nat | SmallerAt(a, b, n) ensures n > 0 && SmallerAt(a', b', n - 1) {
      assert a[..n] == [a[0]] + a'[..n - 1] && b[..n] == [b[0]] + b'[..n - 1];
      assert a'[..n - 1] == a[..n][1..] && b'[..n - 1] == b[..n][1..];
    }
  }

  lemma {:induction false} Irreflexive(a: Bytes)
    ensures !Below(a, a)
  {
    if a == [] {
    } else {
      Irreflexive(a[1..]);
    }
  }

  lemma {:induction false} Trichotomy(a: Bytes, b: Bytes)
    ensures a == b || Below(a, b) || Below(b, a)
  {
    if a != [] && b != [] && a[0] == b[0] {
      Trichotomy(a[1..], b[1..]);
      assert a == [a[0]] + a[1..] && b == [b[0]] + b[1..];
    }
  }

  lemma {:induction false} Transitive(a: Bytes, b: Bytes, c: Bytes)
    requires Below(a, b) && Below(b, c)
    ensures Below(a, c)
  {
    if a != [] && a[0] == b[0] == c[0] {
      Transitive(a[1..], b[1..], c[1..]);
    }
  }

  predicate IsLeast(k: Bytes, s: set<Bytes>) {
    k in s && forall x :: x in s && x != k ==> Below(k, x)
  }

  lemma {:induction false} LeastExists(s: set<Bytes>)
    requires s != {}
    ensures exists k :: IsLeast(k, s)
  {
    var x :| x in s;
    if s == {x} {
      assert IsLeast(x, s);
    } else {
      LeastExists(s - {x});
      var y :| IsLeast(y, s - {x});
      Trichotomy(x, y);
      if Below(x, y) {
        forall z | z in s && z != x ensures Below(x, z) {
          if z != y {
            Transitive(x, y, z);
          }
        }
        assert IsLeast(x, s);
      } else {
        assert IsLeast(y, s);
      }
    }
  }

  lemma {:induction false} LeastIsUnique(s: set<Bytes>)
    ensures forall a, b :: IsLeast(a, s) && IsLeast(b, s) ==> a == b
  {
    forall a, b | IsLeast(a, s) && IsLeast(b, s) ensures a == b {
      if a != b {
        Transitive(a, b, a);
        Irreflexive(a);
      }
    }
  }

  function Least(s: set<Bytes>): (k: Bytes)
    requires s != {}
    ensures IsLeast(k, s)
  {
    LeastExists(s);
    LeastIsUnique(s);
    var k :| k in s && IsLeast(k, s);
    k
  }

  /** A strictly ascending enumeration. */
  ghost predicate Ascending(ks: seq<Bytes>) {
    forall i, j :: 0 <= i < j < |ks| ==> Below(ks[i], ks[j])
  }
}
