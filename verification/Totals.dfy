/** Sums over finite maps, sums modulo 2^64, and sizes of finite sets. */
module Totals {
  const M64: nat := 0x1_0000_0000_0000_0000
  const MAX_UINT64: nat := M64 - 1

  function U64(x: int): nat { x % M64 }

  /** Go's conversion to a signed type of the width. */
  function Signed(x: int, modulus: nat): int
    requires modulus > 0
  {
    var r := x % modulus;
    if r < modulus / 2 then r else r - modulus
  }

  function Int32(x: int): int { Signed(x, 0x1_0000_0000) }

  function Int64(x: int): int { Signed(x, M64) }

  lemma AddMod(a: int, b: int)
    ensures U64(U64(a) + b) == U64(a + b)
    ensures U64(a + U64(b)) == U64(a + b)
  {
  }

  lemma ModOf(x: int, q: int, r: nat)
    requires r < M64 && x == M64 * q + r
    ensures U64(x) == r
  {
  }

  lemma MulMod(a: nat, b: nat)
    ensures U64(U64(a) * b) == U64(a * b)
  {
    var q, r := a / M64, U64(a);
    assert a == M64 * q + r;
    assert a * b == M64 * (q * b) + r * b by {
      assert (M64 * q + r) * b == M64 * q * b + r * b;
    }
    var q', r' := (r * b) / M64, U64(r * b);
    assert r * b == M64 * q' + r';
    ModOf(a * b, q * b + q', r');
  }

  // ---------------------------------------------------------------- maps

  ghost function Total<K>(m: map<K, nat>): nat {
    if m == map[] then 0
    else
      var k :| k in m;
      m[k] + Total(m - {k})
  }

  lemma {:induction false} TotalWithout<K>(m: map<K, nat>, k: K)
    requires k in m
    ensures Total(m) == m[k] + Total(m - {k})
    decreases |m|
  {
    var p :| p in m && Total(m) == m[p] + Total(m - {p});
    if p != k {
      TotalWithout(m - {p}, k);
      TotalWithout(m - {k}, p);
      assert m - {p} - {k} == m - {k} - {p};
    }
  }

  lemma TotalWith<K>(m: map<K, nat>, k: K, v: nat)
    requires k !in m
    ensures Total(m[k := v]) == v + Total(m)
  {
    TotalWithout(m[k := v], k);
    assert m[k := v] - {k} == m;
  }

  lemma {:induction false} TotalAtMost<K>(m: map<K, nat>, n: map<K, nat>)
    requires m.Keys == n.Keys && forall k :: k in m ==> m[k] <= n[k]
    ensures Total(m) <= Total(n)
    decreases |m|
  {
    if m != map[] {
      var k :| k in m;
      TotalWithout(m, k);
      TotalWithout(n, k);
      TotalAtMost(m - {k}, n - {k});
    }
  }

  /** The part of a map whose keys are in ks. */
  function Part<K, V>(m: map<K, V>, ks: set<K>): map<K, V> {
    map k | k in m && k in ks :: m[k]
  }

  lemma PartWithout<K>(m: map<K, nat>, ks: set<K>, k: K)
    requires k in m
    ensures if k in ks then
              k in Part(m, ks) && Part(m, ks)[k] == m[k] && Part(m - {k}, ks) == Part(m, ks) - {k}
            else
              Part(m - {k}, ks) == Part(m, ks)
  {
  }

  lemma {:induction false} TotalSplits<K>(m: map<K, nat>, a: set<K>, b: set<K>)
    requires a !! b && m.Keys == a + b
    ensures Total(m) == Total(Part(m, a)) + Total(Part(m, b))
    decreases |m|
  {
    if m == map[] {
      assert Part(m, a) == m && Part(m, b) == m;
    } else {
      hide Total, Part;
      var k :| k in m;
      PartWithout(m, a, k);
      PartWithout(m, b, k);
      TotalWithout(m, k);
      if k in a {
        TotalWithout(Part(m, a), k);
        TotalSplits(m - {k}, a - {k}, b);
        assert Part(m - {k}, a) == Part(m - {k}, a - {k}) by { PartIgnores(m - {k}, a, k); }
      } else {
        TotalWithout(Part(m, b), k);
        TotalSplits(m - {k}, a, b - {k});
        assert Part(m - {k}, b) == Part(m - {k}, b - {k}) by { PartIgnores(m - {k}, b, k); }
      }
    }
  }

  lemma PartIgnores<K>(m: map<K, nat>, ks: set<K>, k: K)
    requires k !in m
    ensures Part(m, ks) == Part(m, ks - {k})
  {
  }

  // ---------------------------------------------------------------- sets

  lemma {:induction false} SubsetSize<T>(a: set<T>, b: set<T>)
    requires a <= b
    ensures |a| <= |b|
  {
    if a != {} {
      var x :| x in a;
      SubsetSize(a - {x}, b - {x});
    }
  }

  // ---------------------------------------------------------------- permutations

  /** Where the last element of a sequence is in a permutation of it, and that the rest is a permutation too. */
  lemma LastInPermutation<T>(a: seq<T>, b: seq<T>) returns (i: nat)
    requires a != [] && multiset(a) == multiset(b)
    ensures i < |b| && b[i] == a[|a| - 1]
    ensures multiset(a[..|a| - 1]) == multiset(b[..i] + b[i + 1..])
    ensures b == b[..i] + [a[|a| - 1]] + b[i + 1..]
  {
    var c, x := a[..|a| - 1], a[|a| - 1];
    assert a == c + [x];
    assert x in multiset(b);
    i :| 0 <= i < |b| && b[i] == x;
    var l, r := b[..i], b[i + 1..];
    assert b == l + [x] + r;
    assert multiset(l + r) == multiset(b) - multiset{x} by {
      assert multiset(l + [x] + r) == multiset(l) + multiset{x} + multiset(r);
    }
    assert multiset(c) == multiset(a) - multiset{x};
    assert a[..|a| - 1] == c && b[..i] + b[i + 1..] == l + r;
  }
}
