/** Sorting from the largest down and keeping the first few, as the exports and the cleanup do. */
module Ranking {
  import opened Sequences
  import opened Totals

  datatype Rollup = Rollup(name: string, dimension: string, metric: real, count: nat, min: nat, max: nat, provider: string)

  ghost predicate Descending<T>(s: seq<T>, key: T -> real) {
    forall i, j :: 0 <= i < j < |s| ==> key(s[i]) >= key(s[j])
  }

  function Insert<T>(s: seq<T>, x: T, key: T -> real): seq<T> {
    if s == [] then [x]
    else if key(s[|s| - 1]) >= key(x) then s + [x]
    else Insert(s[..|s| - 1], x, key) + [s[|s| - 1]]
  }

  lemma {:induction false} InsertHolds<T>(s: seq<T>, x: T, key: T -> real)
    ensures multiset(Insert(s, x, key)) == multiset(s) + multiset{x}
    ensures |Insert(s, x, key)| == |s| + 1
  {
    if s != [] && key(s[|s| - 1]) < key(x) {
      InsertHolds(s[..|s| - 1], x, key);
      assert s == s[..|s| - 1] + [s[|s| - 1]];
    }
  }

  /** An inserted element is no smaller than what bounds the others and itself from below. */
  lemma {:induction false} InsertAbove<T>(s: seq<T>, x: T, key: T -> real, bound: real)
    requires key(x) >= bound && forall i :: 0 <= i < |s| ==> key(s[i]) >= bound
    ensures forall i :: 0 <= i < |Insert(s, x, key)| ==> key(Insert(s, x, key)[i]) >= bound
  {
    if s != [] && key(s[|s| - 1]) < key(x) {
      InsertAbove(s[..|s| - 1], x, key, bound);
    }
  }

  lemma {:induction false} InsertKeepsOrder<T>(s: seq<T>, x: T, key: T -> real)
    requires Descending(s, key)
    ensures Descending(Insert(s, x, key), key)
  {
    if s != [] && key(s[|s| - 1]) < key(x) {
      InsertKeepsOrder(s[..|s| - 1], x, key);
      InsertAbove(s[..|s| - 1], x, key, key(s[|s| - 1]));
    }
  }

  method SortDescending<T>(s: seq<T>, key: T -> real) returns (t: seq<T>)
    ensures Descending(t, key) && multiset(t) == multiset(s) && |t| == |s|
  {
    t := [];
    for i := 0 to |s|
      invariant Descending(t, key) && multiset(t) == multiset(s[..i]) && |t| == i
    {
      hide Insert, Descending;
      InsertKeepsOrder(t, s[i], key);
      InsertHolds(t, s[i], key);
      t := Insert(t, s[i], key);
      assert s[..i + 1] == s[..i] + [s[i]];
    }
    assert s[..|s|] == s;
  }

  /** Nothing that is dropped is better than anything that is kept. */
  ghost predicate Divides(kept: seq<Rollup>, dropped: seq<Rollup>, all: seq<Rollup>) {
    && multiset(kept) + multiset(dropped) == multiset(all)
    && forall i, j :: 0 <= i < |kept| && 0 <= j < |dropped| ==> kept[i].metric >= dropped[j].metric
  }

  /** The best k of all rollups for k > 0, and all of them otherwise, the largest metric first. */
  ghost predicate IsTop(kept: seq<Rollup>, all: seq<Rollup>, k: int) {
    && |kept| == (if 0 < k < |all| then k else |all|)
    && (forall i, j :: 0 <= i < j < |kept| ==> kept[i].metric >= kept[j].metric)
    && exists dropped :: Divides(kept, dropped, all)
  }

  method TopK(keys: seq<Rollup>, k: int) returns (kept: seq<Rollup>)
    ensures IsTop(kept, keys, k)
  {
    var key := (r: Rollup) => r.metric;
    var sorted := SortDescending(keys, key);
    var n := if 0 < k < |keys| then k else |keys|;
    kept := sorted[..n];
    assert sorted == kept + sorted[n..];
    assert forall i, j :: 0 <= i < j < |sorted| ==> key(sorted[i]) >= key(sorted[j]);
    assert Divides(kept, sorted[n..], keys);
  }

  // ---------------------------------------------------------------- one rollup for each key

  function Dimensions(rollups: seq<Rollup>): seq<string> {
    seq(|rollups|, i requires 0 <= i < |rollups| => rollups[i].dimension)
  }

  /** The rollup of each of some keys, in some order. */
  ghost predicate ListsRollups(all: seq<Rollup>, rollups: map<string, Rollup>, keys: set<string>) {
    && Lists(Dimensions(all), keys)
    && forall i :: 0 <= i < |all| ==> all[i].dimension in rollups && all[i] == rollups[all[i].dimension]
  }

  lemma ListsNoRollups(rollups: map<string, Rollup>)
    ensures ListsRollups([], rollups, {})
  {
  }

  lemma ListsOneMore(all: seq<Rollup>, rollups: map<string, Rollup>, keys: set<string>, k: string)
    requires ListsRollups(all, rollups, keys) && k in rollups && k !in keys && rollups[k].dimension == k
    ensures ListsRollups(all + [rollups[k]], rollups, keys + {k})
  {
    assert Dimensions(all + [rollups[k]]) == Dimensions(all) + [k];
    ListsSnoc(Dimensions(all), keys, k);
  }

  /** An export: the best of one rollup for each key. */
  ghost predicate IsExport(kept: seq<Rollup>, rollups: map<string, Rollup>, k: int) {
    exists all :: ListsRollups(all, rollups, rollups.Keys) && IsTop(kept, all, k)
  }

  lemma ExportOf(all: seq<Rollup>, kept: seq<Rollup>, rollups: map<string, Rollup>, k: int)
    requires ListsRollups(all, rollups, rollups.Keys) && IsTop(kept, all, k)
    ensures IsExport(kept, rollups, k)
  {
  }

  lemma {:induction false} ListedOnce(s: seq<string>, all: set<string>)
    requires Lists(s, all)
    ensures |s| == |all|
  {
    if s == [] {
      assert all == {};
    } else {
      var n := |s| - 1;
      assert s[n] in all && s == s[..n] + [s[n]];
      forall x ensures x in s[..n] <==> x in all - {s[n]} {
        assert x in s <==> x in all;
      }
      ListedOnce(s[..n], all - {s[n]});
    }
  }

  lemma KeptAreListed(kept: seq<Rollup>, dropped: seq<Rollup>, all: seq<Rollup>, r: Rollup)
    requires Divides(kept, dropped, all)
    ensures r in all <==> r in kept || r in dropped
  {
    assert r in multiset(all) <==> r in multiset(kept) + multiset(dropped);
  }

  ghost predicate LeftOut(kept: seq<Rollup>, key: string) {
    forall r :: r in kept ==> r.dimension != key
  }

  /** What is left out is no better than what is kept. */
  lemma LeftOutNoBetter(kept: seq<Rollup>, all: seq<Rollup>, dropped: seq<Rollup>, rollups: map<string, Rollup>, key: string)
    requires ListsRollups(all, rollups, rollups.Keys) && Divides(kept, dropped, all)
    requires key in rollups && key !in Dimensions(kept)
    ensures forall r :: r in kept ==> r.metric >= rollups[key].metric
  {
    assert key in Dimensions(all);
    var i :| 0 <= i < |all| && Dimensions(all)[i] == key;
    assert forall j :: 0 <= j < |kept| ==> kept[j].dimension == Dimensions(kept)[j] != key;
    KeptAreListed(kept, dropped, all, all[i]);
  }

  /** The first n of something sorted have no key twice. */
  lemma KeptOnce(kept: seq<Rollup>, all: seq<Rollup>, dropped: seq<Rollup>, rollups: map<string, Rollup>)
    requires ListsRollups(all, rollups, rollups.Keys) && Divides(kept, dropped, all)
    ensures forall i, j :: 0 <= i < j < |kept| ==> kept[i].dimension != kept[j].dimension
  {
    forall i, j | 0 <= i < j < |all| ensures all[i].dimension != all[j].dimension {
      assert Dimensions(all)[i] != Dimensions(all)[j];
    }
    hide Lists;
    forall i, j | 0 <= i < j < |kept| ensures kept[i].dimension != kept[j].dimension {
      if kept[i].dimension == kept[j].dimension {
        var r := kept[i];
        KeptAreListed(kept, dropped, all, kept[i]);
        KeptAreListed(kept, dropped, all, kept[j]);
        assert kept[j] == r;
        TwiceCounts(kept, i, j);
        assert multiset(all)[r] >= 2;
        OnceCounts(all, r);
      }
    }
  }

  lemma TwiceCounts(s: seq<Rollup>, i: nat, j: nat)
    requires i < j < |s| && s[i] == s[j]
    ensures multiset(s)[s[i]] >= 2
  {
    assert s == s[..j] + s[j..];
    assert s[..j][i] == s[i] && s[j..][0] == s[i];
  }

  lemma {:induction false} OnceCounts(all: seq<Rollup>, r: Rollup)
    requires forall i, j :: 0 <= i < j < |all| ==> all[i].dimension != all[j].dimension
    ensures multiset(all)[r] <= 1
  {
    if all != [] {
      var n := |all| - 1;
      OnceCounts(all[..n], r);
      assert all == all[..n] + [all[n]];
      if all[n] == r {
        assert r !in all[..n];
      }
    }
  }

  /**
   * An export has min(K, n) rollups for K > 0 and n keys, the largest first and no key twice; and a key it leaves
   * out is no better than one it has.
   */
  lemma ExportKeepsBest(kept: seq<Rollup>, rollups: map<string, Rollup>, k: int)
    requires IsExport(kept, rollups, k)
    ensures |kept| == if 0 < k < |rollups| then k else |rollups|
    ensures forall i, j :: 0 <= i < j < |kept| ==> kept[i].metric >= kept[j].metric && kept[i].dimension != kept[j].dimension
    ensures forall r :: r in kept ==> r.dimension in rollups && r == rollups[r.dimension]
    ensures forall key, r :: key in rollups && LeftOut(kept, key) && r in kept ==> r.metric >= rollups[key].metric
  {
    var all :| ListsRollups(all, rollups, rollups.Keys) && IsTop(kept, all, k);
    var dropped :| Divides(kept, dropped, all);
    KeptOnce(kept, all, dropped, rollups);
    ListedOnce(Dimensions(all), rollups.Keys);
    assert |rollups| == |rollups.Keys| && |Dimensions(all)| == |all|;
    hide Lists, IsExport, Divides;
    forall r | r in kept ensures r.dimension in rollups && r == rollups[r.dimension] {
      KeptAreListed(kept, dropped, all, r);
    }
    forall key | key in rollups && LeftOut(kept, key)
      ensures forall r :: r in kept ==> r.metric >= rollups[key].metric
    {
      assert key !in Dimensions(kept);
      LeftOutNoBetter(kept, all, dropped, rollups, key);
    }
  }

  // ---------------------------------------------------------------- the cleanup threshold

  /** How many elements are above a. */
  function CountAbove(s: seq<int>, a: int): nat {
    if s == [] then 0 else CountAbove(s[..|s| - 1], a) + if s[|s| - 1] > a then 1 else 0
  }

  lemma {:induction false} CountConcat(s: seq<int>, t: seq<int>, a: int)
    ensures CountAbove(s + t, a) == CountAbove(s, a) + CountAbove(t, a)
    decreases |t|
  {
    if t == [] {
      assert s + t == s;
    } else {
      CountConcat(s, t[..|t| - 1], a);
      assert (s + t)[..|s + t| - 1] == s + t[..|t| - 1];
    }
  }

  lemma {:induction false} CountPermuted(s: seq<int>, t: seq<int>, a: int)
    requires multiset(s) == multiset(t)
    ensures CountAbove(s, a) == CountAbove(t, a)
    decreases |s|
  {
    if s == [] {
      assert |multiset(t)| == 0;
    } else {
      var i := LastInPermutation(s, t);
      CountPermuted(s[..|s| - 1], t[..i] + t[i + 1..], a);
      CountConcat(t[..i], [t[i]] + t[i + 1..], a);
      CountConcat([t[i]], t[i + 1..], a);
      CountConcat(t[..i], t[i + 1..], a);
      assert t[..i] + ([t[i]] + t[i + 1..]) == t;
      assert CountAbove([t[i]], a) == if t[i] > a then 1 else 0;
    }
  }

  lemma {:induction false} CountBounds(s: seq<int>, a: int)
    ensures CountAbove(s, a) <= |s|
    ensures (forall i :: 0 <= i < |s| ==> s[i] > a) ==> CountAbove(s, a) == |s|
    ensures (forall i :: 0 <= i < |s| ==> s[i] <= a) ==> CountAbove(s, a) == 0
  {
    if s != [] {
      CountBounds(s[..|s| - 1], a);
    }
  }

  lemma PrefixAbove(s: seq<int>, n: nat, a: int)
    requires n < |s| && forall i :: 0 <= i <= n ==> s[i] > a
    ensures CountAbove(s, a) > n
  {
    hide CountAbove;
    var l, r := s[..n + 1], s[n + 1..];
    assert s == l + r;
    CountConcat(l, r, a);
    CountBounds(l, a);
  }

  lemma SuffixNotAbove(s: seq<int>, n: nat, a: int)
    requires n < |s| && forall i :: n <= i < |s| ==> s[i] <= a
    ensures CountAbove(s, a) <= n
  {
    hide CountAbove;
    var l, r := s[..n], s[n..];
    assert s == l + r;
    CountConcat(l, r, a);
    CountBounds(l, a);
    CountBounds(r, a);
  }

  /** In descending order, the element at position n is above a exactly when more than n elements are. */
  lemma AboveAtIff(s: seq<int>, n: nat, a: int)
    requires n < |s| && forall i, j :: 0 <= i < j < |s| ==> s[i] >= s[j]
    ensures s[n] > a <==> CountAbove(s, a) > n
  {
    if s[n] > a {
      PrefixAbove(s, n, a);
    } else {
      SuffixNotAbove(s, n, a);
    }
  }
}
