/**
 * What the tags of a device can end with: of all that the loops over its tags may visit, the possible values
 * of each tag, read off the tags the device starts with.
 */
module TagOutcomes {
  import opened Options
  import opened Sequences
  import opened DeviceTags

  // ---------------------------------------------------------------- one prefix many times over

  function Deep(p: string, k: nat, z: string): string {
    if k == 0 then z else Prefixed(p, Deep(p, k - 1, z))
  }

  lemma DeepParts(p: string, k: nat, z: string)
    requires ':' !in p && k > 0
    ensures Parts(Deep(p, k, z)) == Some((p, Deep(p, k - 1, z))) && Belongs(Deep(p, k, z), p)
  {
    PartsIff(Deep(p, k, z), p, Deep(p, k - 1, z));
  }

  lemma {:induction false} DeepUnique(p: string, i: nat, y: string, j: nat, z: string)
    requires ':' !in p && !Belongs(y, p) && !Belongs(z, p) && Deep(p, i, y) == Deep(p, j, z)
    ensures i == j && y == z
  {
    hide Parts, Prefixed;
    if i > 0 {
      DeepParts(p, i, y);
    }
    if j > 0 {
      DeepParts(p, j, z);
    }
    if i > 0 && j > 0 {
      DeepUnique(p, i - 1, y, j - 1, z);
    }
  }

  /** The key in the map that has the prefix fewest times before z. */
  ghost predicate LowestAt(c: Tags, p: string, z: string, k: nat) {
    Deep(p, k, z) in c && forall i: nat :: i < k ==> Deep(p, i, z) !in c
  }

  ghost predicate Absent(c: Tags, p: string, z: string) {
    forall i: nat :: Deep(p, i, z) !in c
  }

  lemma {:induction false} Lowest(c: Tags, p: string, z: string, i: nat) returns (k: nat)
    requires Deep(p, i, z) in c
    ensures k <= i && LowestAt(c, p, z, k)
  {
    hide Deep;
    if j: nat :| j < i && Deep(p, j, z) in c {
      k := Lowest(c, p, z, j);
    } else {
      k := i;
    }
  }

  // ---------------------------------------------------------------- one loop

  /** A visit takes the prefix off the lowest key of a chain, or leaves that key as it is. */
  lemma VisitLowers(c: Tags, p: string, z: string, k: nat, x: string) returns (n: nat)
    requires ':' !in p && !Belongs(z, p) && LowestAt(c, p, z, k)
    ensures n == if x == Deep(p, k, z) && k > 0 then k - 1 else k
    ensures LowestAt(Visit(c, p, x), p, z, n) && Visit(c, p, x)[Deep(p, n, z)] == c[Deep(p, k, z)]
  {
    DeepNone(p, z);
    hide Parts, Prefixed, Deep;
    n := if x == Deep(p, k, z) && k > 0 then k - 1 else k;
    if k > 0 {
      DeepParts(p, k, z);
    }
    if !Belongs(x, p) || x !in c {
      Unchanged(c, p, x);
    } else {
      var t := Parts(x).value.1;
      forall i: nat | i < n ensures Deep(p, i, z) != t && Deep(p, i, z) !in c {
        if Deep(p, i, z) == t {
          DeepBehind(p, i, z, x);
        }
      }
    }
  }

  lemma DeepBehind(p: string, i: nat, z: string, x: string)
    requires ':' !in p && Belongs(x, p) && Parts(x).value.1 == Deep(p, i, z)
    ensures x == Deep(p, i + 1, z)
  {
    PartsIff(x, p, Deep(p, i, z));
  }

  lemma Unchanged(c: Tags, p: string, x: string)
    requires !Belongs(x, p) || x !in c
    ensures Visit(c, p, x) == c
  {
    if x in c {
      VisitOther(c, p, x);
    }
  }

  lemma VisitAbsent(c: Tags, p: string, z: string, x: string)
    requires ':' !in p && Absent(c, p, z)
    ensures Absent(Visit(c, p, x), p, z)
  {
    hide Parts, Prefixed, Deep;
    if !Belongs(x, p) || x !in c {
      Unchanged(c, p, x);
    } else {
      forall i: nat ensures Deep(p, i, z) !in Visit(c, p, x) {
        if Parts(x).value.1 == Deep(p, i, z) {
          DeepBehind(p, i, z, x);
        }
      }
    }
  }

  lemma {:induction false} VisitsAbsent(m: Tags, p: string, visits: seq<string>, z: string)
    requires ':' !in p && Absent(m, p, z)
    ensures Absent(VisitAll(m, p, visits), p, z)
  {
    hide Visit, Absent;
    if visits != [] {
      var n := |visits| - 1;
      VisitsAbsent(m, p, visits[..n], z);
      VisitAbsent(VisitAll(m, p, visits[..n]), p, z, visits[n]);
    }
  }

  /** The value of the lowest key goes down its chain; one step only, unless a key that was not there at first is visited. */
  lemma {:induction false} VisitsLower(m: Tags, p: string, visits: seq<string>, z: string, i: nat) returns (k: nat)
    requires ':' !in p && !Belongs(z, p) && LowestAt(m, p, z, i)
    ensures k <= i && (i > 0 && Deep(p, i, z) in visits ==> k < i)
    ensures (forall j: nat :: 0 < j < i ==> Deep(p, j, z) !in visits) ==> i <= k + 1
    ensures LowestAt(VisitAll(m, p, visits), p, z, k) && VisitAll(m, p, visits)[Deep(p, k, z)] == m[Deep(p, i, z)]
  {
    hide Visit, Deep, LowestAt;
    if visits == [] {
      k := i;
    } else {
      var n := |visits| - 1;
      assert visits == visits[..n] + [visits[n]];
      var h := VisitsLower(m, p, visits[..n], z, i);
      k := VisitLowers(VisitAll(m, p, visits[..n]), p, z, h, visits[n]);
    }
  }

  ghost predicate InChain(x: string, p: string, z: string) {
    exists j: nat :: x == Deep(p, j, z)
  }

  /** Whatever is visited from here, z gets the value of the lowest key of its chain. */
  lemma {:induction false} PeelDown(m: Tags, p: string, visits: seq<string>, z: string, k: nat) returns (more: seq<string>)
    requires ':' !in p && !Belongs(z, p) && IsIteration(m, p, visits) && LowestAt(VisitAll(m, p, visits), p, z, k)
    ensures IsIteration(m, p, visits + more)
    ensures Lookup(VisitAll(m, p, visits + more), z) == Some(VisitAll(m, p, visits)[Deep(p, k, z)])
    ensures forall x :: x in more ==> InChain(x, p, z)
    decreases k
  {
    hide Visit, VisitAll, IsIteration, Prefixed, Parts;
    if k == 0 {
      more := [];
      assert visits + more == visits;
    } else {
      var x := Deep(p, k, z);
      OneMoreVisit(m, p, visits, x);
      VisitLast(m, p, visits, x);
      var n := VisitLowers(VisitAll(m, p, visits), p, z, k, x);
      assert InChain(x, p, z);
      var rest := PeelDown(m, p, visits + [x], z, n);
      more := [x] + rest;
      assert visits + more == visits + [x] + rest;
    }
  }

  /** What a loop may leave of a map. */
  ghost predicate Leaves(m: Tags, p: string, c: Tags) {
    exists visits :: IsIteration(m, p, visits) && c == VisitAll(m, p, visits)
  }

  /** A chain loses at most one prefix, and its lowest value reaches z if that is enough. */
  ghost predicate Held(m: Tags, c: Tags, p: string, z: string, steps: nat) {
    forall i: nat :: LowestAt(m, p, z, i) ==> GoesTo(m, c, p, z, i, if i <= steps then 0 else i - steps)
  }

  ghost predicate GoesTo(m: Tags, c: Tags, p: string, z: string, i: nat, k: nat)
    requires LowestAt(m, p, z, i)
  {
    LowestAt(c, p, z, k) && c[Deep(p, k, z)] == m[Deep(p, i, z)]
  }

  ghost predicate Peeled(m: Tags, c: Tags, p: string, z: string) {
    forall i: nat :: LowestAt(m, p, z, i) ==> Lookup(c, z) == Some(m[Deep(p, i, z)])
  }

  /** Some loop takes all prefixes off one chain, and not more than one off any other. */
  lemma SomeLoop(m: Tags, p: string, peel: Option<string>) returns (c: Tags)
    requires ':' !in p && (peel.Some? ==> !Belongs(peel.value, p))
    ensures Leaves(m, p, c)
    ensures peel.Some? ==> Peeled(m, c, p, peel.value)
    ensures forall z :: !Belongs(z, p) && Some(z) != peel ==> Held(m, c, p, z, 1)
  {
    hide VisitAll, Deep, LowestAt, IsIteration, Peeled, Held, Parts;
    var all := ListOf(m.Keys);
    EachOnce(m, p, all);
    var more: seq<string> := [];
    assert all + more == all;
    if peel.Some? {
      var z := peel.value;
      if i: nat :| LowestAt(m, p, z, i) {
        more := PeelOne(m, p, all, z, i);
      } else {
        assert Peeled(m, VisitAll(m, p, all), p, z) by { NothingPeeled(m, VisitAll(m, p, all), p, z); }
      }
    }
    c := VisitAll(m, p, all + more);
    forall z | !Belongs(z, p) && Some(z) != peel ensures Held(m, c, p, z, 1) {
      HoldsOther(m, p, all, more, peel, z);
    }
  }

  lemma NothingPeeled(m: Tags, c: Tags, p: string, z: string)
    requires forall i: nat :: !LowestAt(m, p, z, i)
    ensures Peeled(m, c, p, z)
  {
    hide LowestAt;
  }

  lemma OneLowest(m: Tags, p: string, z: string, i: nat, j: nat)
    requires LowestAt(m, p, z, i) && LowestAt(m, p, z, j)
    ensures i == j
  {
    hide Deep;
  }

  lemma PeelOne(m: Tags, p: string, all: seq<string>, z: string, i: nat) returns (more: seq<string>)
    requires ':' !in p && !Belongs(z, p) && IsIteration(m, p, all) && LowestAt(m, p, z, i)
    ensures IsIteration(m, p, all + more) && Peeled(m, VisitAll(m, p, all + more), p, z)
    ensures forall x :: x in more ==> InChain(x, p, z)
  {
    hide VisitAll, Deep, LowestAt, IsIteration;
    var k := VisitsLower(m, p, all, z, i);
    more := PeelDown(m, p, all, z, k);
    forall j: nat | LowestAt(m, p, z, j) ensures i == j {
      OneLowest(m, p, z, i, j);
    }
  }

  lemma HoldsOther(m: Tags, p: string, all: seq<string>, more: seq<string>, peel: Option<string>, z: string)
    requires ':' !in p && Lists(all, m.Keys) && !Belongs(z, p) && Some(z) != peel
    requires more == [] || (peel.Some? && !Belongs(peel.value, p) && forall x :: x in more ==> InChain(x, p, peel.value))
    ensures Held(m, VisitAll(m, p, all + more), p, z, 1)
  {
    hide VisitAll, Deep, Parts;
    forall i: nat | LowestAt(m, p, z, i)
      ensures GoesTo(m, VisitAll(m, p, all + more), p, z, i, if i <= 1 then 0 else i - 1)
    {
      assert Deep(p, i, z) in all;
      forall j: nat | 0 < j < i ensures Deep(p, j, z) !in all + more {
        if Deep(p, j, z) in more {
          var h: nat :| Deep(p, j, z) == Deep(p, h, peel.value);
          DeepUnique(p, j, z, h, peel.value);
        }
      }
      var k := VisitsLower(m, p, all + more, z, i);
    }
  }

  // ---------------------------------------------------------------- a prefix taken off in several loops

  /** Loops in a row that take off the same prefix. */
  datatype Pass = Pass(p: string, times: nat)

  ghost predicate PassLeaves(m: Tags, q: Pass, c: Tags)
    decreases q.times
  {
    if q.times == 0 then c == m
    else exists b :: PassLeaves(m, Pass(q.p, q.times - 1), b) && Leaves(b, q.p, c)
  }

  lemma {:induction false} PassAbsent(m: Tags, q: Pass, c: Tags, z: string)
    requires ':' !in q.p && PassLeaves(m, q, c) && Absent(m, q.p, z)
    ensures Absent(c, q.p, z)
    decreases q.times
  {
    hide Absent, VisitAll, IsIteration;
    if q.times > 0 {
      var b :| PassLeaves(m, Pass(q.p, q.times - 1), b) && Leaves(b, q.p, c);
      PassAbsent(m, Pass(q.p, q.times - 1), b, z);
      var visits :| IsIteration(b, q.p, visits) && c == VisitAll(b, q.p, visits);
      VisitsAbsent(b, q.p, visits, z);
    }
  }

  /** The lowest value of a chain loses a prefix in each loop at least, until it is z's. */
  lemma {:induction false} PassLowers(m: Tags, q: Pass, c: Tags, z: string, i: nat) returns (k: nat)
    requires ':' !in q.p && PassLeaves(m, q, c) && !Belongs(z, q.p) && LowestAt(m, q.p, z, i)
    ensures k == 0 || k + q.times <= i
    ensures LowestAt(c, q.p, z, k) && c[Deep(q.p, k, z)] == m[Deep(q.p, i, z)]
    decreases q.times
  {
    hide LowestAt, VisitAll, Deep, Parts;
    if q.times == 0 {
      k := i;
    } else {
      var b :| PassLeaves(m, Pass(q.p, q.times - 1), b) && Leaves(b, q.p, c);
      var h := PassLowers(m, Pass(q.p, q.times - 1), b, z, i);
      var visits :| IsIteration(b, q.p, visits) && c == VisitAll(b, q.p, visits);
      assert Deep(q.p, h, z) in b by { LowestIsIn(b, q.p, z, h); }
      k := VisitsLower(b, q.p, visits, z, h);
    }
  }

  lemma LowestIsIn(c: Tags, p: string, z: string, k: nat)
    requires LowestAt(c, p, z, k)
    ensures Deep(p, k, z) in c
  {
  }

  lemma {:induction false} SomePass(m: Tags, q: Pass, peel: Option<string>) returns (c: Tags)
    requires ':' !in q.p && q.times > 0 && (peel.Some? ==> !Belongs(peel.value, q.p))
    ensures PassLeaves(m, q, c)
    ensures peel.Some? ==> Peeled(m, c, q.p, peel.value)
    ensures forall z :: !Belongs(z, q.p) && Some(z) != peel ==> Held(m, c, q.p, z, q.times)
    decreases q.times
  {
    hide Leaves, LowestAt, Deep, Parts, Peeled, Held;
    if q.times == 1 {
      c := SomeLoop(m, q.p, peel);
      assert PassLeaves(m, Pass(q.p, 0), m);
    } else {
      var b := SomePass(m, Pass(q.p, q.times - 1), peel);
      c := SomeLoop(b, q.p, peel);
      if peel.Some? {
        PeeledStays(m, b, c, q.p, peel.value);
      }
      forall z | !Belongs(z, q.p) && Some(z) != peel ensures Held(m, c, q.p, z, q.times) {
        HeldTwice(m, b, c, q.p, z, q.times - 1);
      }
    }
  }

  lemma PeeledStays(m: Tags, b: Tags, c: Tags, p: string, z: string)
    requires Peeled(m, b, p, z) && Peeled(b, c, p, z)
    ensures Peeled(m, c, p, z)
  {
    forall i: nat | LowestAt(m, p, z, i) ensures Lookup(c, z) == Some(m[Deep(p, i, z)]) {
      assert z == Deep(p, 0, z);
      assert LowestAt(b, p, z, 0);
    }
  }

  lemma HeldTwice(m: Tags, b: Tags, c: Tags, p: string, z: string, steps: nat)
    requires Held(m, b, p, z, steps) && Held(b, c, p, z, 1)
    ensures Held(m, c, p, z, steps + 1)
  {
    hide Deep, LowestAt;
    forall i: nat | LowestAt(m, p, z, i) ensures GoesTo(m, c, p, z, i, if i <= steps + 1 then 0 else i - (steps + 1)) {
      var k := if i <= steps then 0 else i - steps;
      assert GoesTo(m, b, p, z, i, k);
      assert GoesTo(b, c, p, z, k, if k <= 1 then 0 else k - 1);
    }
  }

  // ---------------------------------------------------------------- the possible values

  /**
   * The values a tag can have after some passes, none of whose prefixes it has itself: that of the first key of its
   * chain that can be there while no key before it is. None, if no key has to be there, or the first one has the
   * prefix more often than it has to come off.
   */
  ghost predicate Possible(m: Tags, qs: seq<Pass>, y: string, r: Option<string>)
    decreases |qs|, 0
  {
    if qs == [] then r == Lookup(m, y)
    else
      var n := |qs| - 1;
      if r.Some? then exists k: nat :: FirstAt(m, qs[..n], qs[n].p, y, k, r)
      else
        || (forall k: nat :: Possible(m, qs[..n], Deep(qs[n].p, k, y), None))
        || exists k: nat, v: string :: k > qs[n].times && FirstAt(m, qs[..n], qs[n].p, y, k, Some(v))
  }

  ghost predicate FirstAt(m: Tags, qs: seq<Pass>, p: string, y: string, k: nat, r: Option<string>)
    decreases |qs|, 1
  {
    && Possible(m, qs, Deep(p, k, y), r)
    && forall i: nat :: i < k ==> Possible(m, qs, Deep(p, i, y), None)
  }

  ghost predicate Runs(m: Tags, qs: seq<Pass>, c: Tags) {
    if qs == [] then c == m
    else
      var n := |qs| - 1;
      exists b :: Runs(m, qs[..n], b) && PassLeaves(b, qs[n], c)
  }

  predicate ArePasses(qs: seq<Pass>) {
    && (forall i :: 0 <= i < |qs| ==> ':' !in qs[i].p && qs[i].times > 0)
    && (forall i, j :: 0 <= i < j < |qs| ==> qs[i].p != qs[j].p)
  }

  /** The tag has none of the prefixes. */
  predicate IsFree(y: string, qs: seq<Pass>) {
    forall i :: 0 <= i < |qs| ==> !Belongs(y, qs[i].p)
  }

  lemma FreeDeep(y: string, qs: seq<Pass>, k: nat)
    requires qs != [] && ArePasses(qs) && IsFree(y, qs)
    ensures IsFree(Deep(qs[|qs| - 1].p, k, y), qs[..|qs| - 1]) && ArePasses(qs[..|qs| - 1])
  {
    hide Deep, Parts;
    if k > 0 {
      DeepParts(qs[|qs| - 1].p, k, y);
    } else {
      assert Deep(qs[|qs| - 1].p, 0, y) == y by { DeepNone(qs[|qs| - 1].p, y); }
    }
  }

  lemma DeepNone(p: string, y: string)
    ensures Deep(p, 0, y) == y
  {
  }

  lemma {:induction false} OnlyPossible(m: Tags, qs: seq<Pass>, c: Tags, y: string)
    requires ArePasses(qs) && IsFree(y, qs) && Runs(m, qs, c)
    ensures Possible(m, qs, y, Lookup(c, y))
    decreases |qs|
  {
    hide Parts, Deep, LowestAt, PassLeaves;
    if qs != [] {
      var n := |qs| - 1;
      var q, before := qs[n], qs[..n];
      var b :| Runs(m, before, b) && PassLeaves(b, q, c);
      forall k: nat ensures Possible(m, before, Deep(q.p, k, y), Lookup(b, Deep(q.p, k, y))) {
        FreeDeep(y, qs, k);
        OnlyPossible(m, before, b, Deep(q.p, k, y));
      }
      DeepNone(q.p, y);
      if i: nat :| Deep(q.p, i, y) in b {
        var h := Lowest(b, q.p, y, i);
        LowestIsIn(b, q.p, y, h);
        var k := PassLowers(b, q, c, y, h);
        FirstOfChain(m, before, b, q.p, y, h);
        LowestOrNone(c, q.p, y, k);
        if k > 0 {
          assert h > q.times && FirstAt(m, before, q.p, y, h, Some(b[Deep(q.p, h, y)]));
        }
      } else {
        PassAbsent(b, q, c, y);
        assert Deep(q.p, 0, y) !in c;
      }
    }
  }

  lemma LowestOrNone(c: Tags, p: string, y: string, k: nat)
    requires LowestAt(c, p, y, k)
    ensures Lookup(c, y) == if k == 0 then Some(c[Deep(p, 0, y)]) else None
  {
    assert Deep(p, 0, y) == y;
  }

  lemma FirstOfChain(m: Tags, qs: seq<Pass>, b: Tags, p: string, y: string, h: nat)
    requires LowestAt(b, p, y, h) && forall k: nat :: Possible(m, qs, Deep(p, k, y), Lookup(b, Deep(p, k, y)))
    ensures FirstAt(m, qs, p, y, h, Some(b[Deep(p, h, y)]))
  {
    hide Deep, Possible;
    assert Possible(m, qs, Deep(p, h, y), Lookup(b, Deep(p, h, y)));
    forall i: nat | i < h ensures Possible(m, qs, Deep(p, i, y), None) {
      assert Possible(m, qs, Deep(p, i, y), Lookup(b, Deep(p, i, y)));
    }
  }

  /** All other tags that can end with nothing do. */
  ghost predicate OthersEmpty(m: Tags, qs: seq<Pass>, c: Tags, y: Option<string>) {
    forall z :: IsFree(z, qs) && Some(z) != y && Possible(m, qs, z, None) ==> Lookup(c, z) == None
  }

  /** Each possible value of a tag comes about, in a run that leaves as little as possible of all other tags. */
  lemma {:induction false} AllPossible(m: Tags, qs: seq<Pass>, y: string, r: Option<string>) returns (c: Tags)
    requires ArePasses(qs) && IsFree(y, qs) && Possible(m, qs, y, r)
    ensures Runs(m, qs, c) && Lookup(c, y) == r
    ensures OthersEmpty(m, qs, c, if r.Some? then Some(y) else None)
    decreases |qs|
  {
    hide Parts, Deep, LowestAt, PassLeaves, Held, Peeled;
    if qs == [] {
      c := m;
    } else {
      var n := |qs| - 1;
      var q, before := qs[n], qs[..n];
      var k: nat, peel: Option<string>, b;
      if r.Some? {
        k :| FirstAt(m, before, q.p, y, k, r);
        peel := Some(y);
      } else {
        k, peel := 0, None;
        DeepNone(q.p, y);
        NoneFirst(m, qs, y);
      }
      FreeDeep(y, qs, k);
      b := AllPossible(m, before, Deep(q.p, k, y), r);
      c := SomePass(b, q, peel);
      if r.Some? {
        LowestReaches(m, qs, y, k, r, b, c);
      }
      forall z | IsFree(z, qs) && Some(z) != peel && Possible(m, qs, z, None) ensures Lookup(c, z) == None {
        EmptyAgain(m, qs, y, k, r, b, c, z);
      }
    }
  }

  lemma NoneFirst(m: Tags, qs: seq<Pass>, y: string)
    requires qs != [] && Possible(m, qs, y, None)
    ensures Possible(m, qs[..|qs| - 1], Deep(qs[|qs| - 1].p, 0, y), None)
  {
    hide Deep;
  }

  lemma LowestReaches(m: Tags, qs: seq<Pass>, y: string, k: nat, r: Option<string>, b: Tags, c: Tags)
    requires qs != [] && ArePasses(qs) && IsFree(y, qs) && r.Some?
    requires FirstAt(m, qs[..|qs| - 1], qs[|qs| - 1].p, y, k, r)
    requires OthersEmpty(m, qs[..|qs| - 1], b, Some(Deep(qs[|qs| - 1].p, k, y))) && Lookup(b, Deep(qs[|qs| - 1].p, k, y)) == r
    requires Peeled(b, c, qs[|qs| - 1].p, y)
    ensures Lookup(c, y) == r
  {
    hide Deep, Possible, Parts;
    var p, before := qs[|qs| - 1].p, qs[..|qs| - 1];
    forall i: nat | i < k ensures Deep(p, i, y) !in b {
      FreeDeep(y, qs, i);
      if Deep(p, i, y) == Deep(p, k, y) {
        DeepUnique(p, i, y, k, y);
      }
      assert Lookup(b, Deep(p, i, y)) == None;
    }
    assert LowestAt(b, p, y, k);
  }

  lemma EmptyAgain(m: Tags, qs: seq<Pass>, y: string, k: nat, r: Option<string>, b: Tags, c: Tags, z: string)
    requires qs != [] && ArePasses(qs) && IsFree(y, qs) && IsFree(z, qs) && Possible(m, qs, z, None) && (r.Some? ==> z != y)
    requires OthersEmpty(m, qs[..|qs| - 1], b, if r.Some? then Some(Deep(qs[|qs| - 1].p, k, y)) else None)
    requires PassLeaves(b, qs[|qs| - 1], c) && Held(b, c, qs[|qs| - 1].p, z, qs[|qs| - 1].times)
    ensures Lookup(c, z) == None
  {
    hide Deep, Parts, PassLeaves, LowestAt;
    var q, before := qs[|qs| - 1], qs[..|qs| - 1];
    forall i: nat | Possible(m, before, Deep(q.p, i, z), None) ensures Deep(q.p, i, z) !in b {
      FreeDeep(z, qs, i);
      if Deep(q.p, i, z) == Deep(q.p, k, y) {
        DeepUnique(q.p, i, z, k, y);
      }
      assert Lookup(b, Deep(q.p, i, z)) == None;
    }
    DeepNone(q.p, z);
    if i: nat :| Deep(q.p, i, z) in b {
      var h := Lowest(b, q.p, z, i);
      LowestIsIn(b, q.p, z, h);
      assert h > q.times;
      LowestOrNone(c, q.p, z, h - q.times);
    } else {
      PassAbsent(b, q, c, z);
      assert Deep(q.p, 0, z) !in c;
    }
  }

  // ---------------------------------------------------------------- the loops for device, provider and all devices

  /** A provider that is called device or global has its prefix taken off twice; one with a colon, never. */
  function PassesOf(provider: string): seq<Pass> {
    if provider == DEVICE_PROVIDER then [Pass(DEVICE_PROVIDER, 2), Pass(GLOBAL_PROVIDER, 1)]
    else if provider == GLOBAL_PROVIDER then [Pass(DEVICE_PROVIDER, 1), Pass(GLOBAL_PROVIDER, 2)]
    else if ':' in provider then [Pass(DEVICE_PROVIDER, 1), Pass(GLOBAL_PROVIDER, 1)]
    else [Pass(DEVICE_PROVIDER, 1), Pass(provider, 1), Pass(GLOBAL_PROVIDER, 1)]
  }

  lemma PassesOfAre(provider: string)
    ensures ArePasses(PassesOf(provider))
  {
    assert DEVICE_PROVIDER[0] != GLOBAL_PROVIDER[0];
  }

  lemma OncePass(m: Tags, p: string, c: Tags)
    ensures PassLeaves(m, Pass(p, 1), c) <==> Leaves(m, p, c)
  {
    hide Leaves;
    assert PassLeaves(m, Pass(p, 0), m);
  }

  lemma TwicePass(m: Tags, p: string, c: Tags)
    ensures PassLeaves(m, Pass(p, 2), c) <==> exists b :: Leaves(m, p, b) && Leaves(b, p, c)
  {
    hide Leaves;
    forall b {
      OncePass(m, p, b);
    }
  }

  lemma {:induction false} ColonLeaves(m: Tags, p: string, visits: seq<string>)
    requires ':' in p
    ensures VisitAll(m, p, visits) == m
  {
    hide Visit;
    if visits != [] {
      var n := |visits| - 1;
      ColonLeaves(m, p, visits[..n]);
      ColonMatchesNone(visits[n], p);
      Unchanged(m, p, visits[n]);
    }
  }

  lemma ColonMatchesNone(x: string, p: string)
    requires ':' in p
    ensures !Belongs(x, p)
  {
    if Belongs(x, p) {
      PartsIff(x, p, Parts(x).value.1);
    }
  }

  lemma ColonPass(m: Tags, p: string, c: Tags)
    requires ':' in p
    ensures Leaves(m, p, c) <==> c == m
  {
    hide VisitAll, IsIteration;
    var visits := SomeIteration(m, p);
    ColonLeaves(m, p, visits);
    if Leaves(m, p, c) {
      var others :| IsIteration(m, p, others) && c == VisitAll(m, p, others);
      ColonLeaves(m, p, others);
    }
  }

  /** The three loops one after the other. */
  ghost predicate LoopsLeave(m: Tags, provider: string, c: Tags) {
    exists a, b :: Leaves(m, DEVICE_PROVIDER, a) && Leaves(a, provider, b) && Leaves(b, GLOBAL_PROVIDER, c)
  }

  lemma LoopsOfVisits(m: Tags, provider: string, c: Tags)
    ensures LoopsLeave(m, provider, c) <==> exists v :: AreIterations(m, provider, v) && c == AfterGlobal(m, provider, v)
  {
    hide VisitAll, IsIteration;
    if LoopsLeave(m, provider, c) {
      var a, b :| Leaves(m, DEVICE_PROVIDER, a) && Leaves(a, provider, b) && Leaves(b, GLOBAL_PROVIDER, c);
      var d :| IsIteration(m, DEVICE_PROVIDER, d) && a == VisitAll(m, DEVICE_PROVIDER, d);
      var e :| IsIteration(a, provider, e) && b == VisitAll(a, provider, e);
      var f :| IsIteration(b, GLOBAL_PROVIDER, f) && c == VisitAll(b, GLOBAL_PROVIDER, f);
      var v := Visits(d, e, f);
      assert AreIterations(m, provider, v) && c == AfterGlobal(m, provider, v);
    }
    if v :| AreIterations(m, provider, v) && c == AfterGlobal(m, provider, v) {
      assert Leaves(m, DEVICE_PROVIDER, AfterDevice(m, v));
      assert Leaves(AfterDevice(m, v), provider, AfterProvider(m, provider, v));
      assert Leaves(AfterProvider(m, provider, v), GLOBAL_PROVIDER, c);
    }
  }

  lemma RunsStep(m: Tags, qs: seq<Pass>, q: Pass, c: Tags)
    ensures Runs(m, qs + [q], c) <==> exists b :: Runs(m, qs, b) && PassLeaves(b, q, c)
  {
    hide PassLeaves;
    var all := qs + [q];
    assert all[..|all| - 1] == qs && all[|all| - 1] == q;
    if b :| Runs(m, qs, b) && PassLeaves(b, q, c) {
      assert Runs(m, all[..|all| - 1], b) && PassLeaves(b, all[|all| - 1], c);
    }
    if Runs(m, all, c) {
      var b :| Runs(m, all[..|all| - 1], b) && PassLeaves(b, all[|all| - 1], c);
      assert Runs(m, qs, b) && PassLeaves(b, q, c);
    }
  }

  lemma RunsOne(m: Tags, q: Pass, c: Tags)
    ensures Runs(m, [q], c) <==> PassLeaves(m, q, c)
  {
    hide PassLeaves;
    assert [] + [q] == [q];
    RunsStep(m, [], q, c);
    assert Runs(m, [], m);
  }

  lemma RunsTwo(m: Tags, q: Pass, r: Pass, c: Tags)
    ensures Runs(m, [q, r], c) <==> exists b :: PassLeaves(m, q, b) && PassLeaves(b, r, c)
  {
    hide PassLeaves, Runs;
    assert [q] + [r] == [q, r];
    RunsStep(m, [q], r, c);
    forall b {
      RunsOne(m, q, b);
    }
  }

  lemma RunsThree(m: Tags, q: Pass, r: Pass, s: Pass, c: Tags)
    ensures Runs(m, [q, r, s], c) <==> exists a, b :: PassLeaves(m, q, a) && PassLeaves(a, r, b) && PassLeaves(b, s, c)
  {
    hide Runs;
    assert [q, r] + [s] == [q, r, s];
    RunsStep(m, [q, r], s, c);
    if b :| Runs(m, [q, r], b) && PassLeaves(b, s, c) {
      RunsTwo(m, q, r, b);
    }
    if a, b :| PassLeaves(m, q, a) && PassLeaves(a, r, b) && PassLeaves(b, s, c) {
      assert PassLeaves(m, q, a) && PassLeaves(a, r, b);
      RunsTwo(m, q, r, b);
    }
  }

  lemma TwiceDevice(m: Tags, c: Tags)
    ensures LoopsLeave(m, DEVICE_PROVIDER, c)
            <==> exists b :: PassLeaves(m, Pass(DEVICE_PROVIDER, 2), b) && PassLeaves(b, Pass(GLOBAL_PROVIDER, 1), c)
  {
    hide Leaves;
    var d, g := DEVICE_PROVIDER, GLOBAL_PROVIDER;
    if LoopsLeave(m, d, c) {
      var a, b :| Leaves(m, d, a) && Leaves(a, d, b) && Leaves(b, g, c);
      TwicePass(m, d, b);
      OncePass(b, g, c);
    }
    if b :| PassLeaves(m, Pass(d, 2), b) && PassLeaves(b, Pass(g, 1), c) {
      TwicePass(m, d, b);
      OncePass(b, g, c);
      var a :| Leaves(m, d, a) && Leaves(a, d, b);
      assert Leaves(b, g, c);
    }
  }

  lemma TwiceGlobal(m: Tags, c: Tags)
    ensures LoopsLeave(m, GLOBAL_PROVIDER, c)
            <==> exists a :: PassLeaves(m, Pass(DEVICE_PROVIDER, 1), a) && PassLeaves(a, Pass(GLOBAL_PROVIDER, 2), c)
  {
    hide Leaves;
    var d, g := DEVICE_PROVIDER, GLOBAL_PROVIDER;
    if LoopsLeave(m, g, c) {
      var a, b :| Leaves(m, d, a) && Leaves(a, g, b) && Leaves(b, g, c);
      OncePass(m, d, a);
      TwicePass(a, g, c);
    }
    if a :| PassLeaves(m, Pass(d, 1), a) && PassLeaves(a, Pass(g, 2), c) {
      OncePass(m, d, a);
      TwicePass(a, g, c);
      var b :| Leaves(a, g, b) && Leaves(b, g, c);
      assert Leaves(m, d, a);
    }
  }

  lemma WithoutProvider(m: Tags, provider: string, c: Tags)
    requires ':' in provider
    ensures LoopsLeave(m, provider, c)
            <==> exists b :: PassLeaves(m, Pass(DEVICE_PROVIDER, 1), b) && PassLeaves(b, Pass(GLOBAL_PROVIDER, 1), c)
  {
    hide Leaves;
    if LoopsLeave(m, provider, c) {
      var a, b :| Leaves(m, DEVICE_PROVIDER, a) && Leaves(a, provider, b) && Leaves(b, GLOBAL_PROVIDER, c);
      ColonPass(a, provider, b);
      OncePass(m, DEVICE_PROVIDER, a);
      OncePass(a, GLOBAL_PROVIDER, c);
    }
    if b :| PassLeaves(m, Pass(DEVICE_PROVIDER, 1), b) && PassLeaves(b, Pass(GLOBAL_PROVIDER, 1), c) {
      OncePass(m, DEVICE_PROVIDER, b);
      OncePass(b, GLOBAL_PROVIDER, c);
      ColonPass(b, provider, b);
      assert Leaves(b, provider, b);
    }
  }

  lemma WithProvider(m: Tags, provider: string, c: Tags)
    ensures LoopsLeave(m, provider, c)
            <==> exists a, b :: PassLeaves(m, Pass(DEVICE_PROVIDER, 1), a) && PassLeaves(a, Pass(provider, 1), b)
                                && PassLeaves(b, Pass(GLOBAL_PROVIDER, 1), c)
  {
    hide Leaves;
    if LoopsLeave(m, provider, c) {
      var a, b :| Leaves(m, DEVICE_PROVIDER, a) && Leaves(a, provider, b) && Leaves(b, GLOBAL_PROVIDER, c);
      OncePass(m, DEVICE_PROVIDER, a);
      OncePass(a, provider, b);
      OncePass(b, GLOBAL_PROVIDER, c);
    }
    if a, b :| PassLeaves(m, Pass(DEVICE_PROVIDER, 1), a) && PassLeaves(a, Pass(provider, 1), b) && PassLeaves(b, Pass(GLOBAL_PROVIDER, 1), c) {
      OncePass(m, DEVICE_PROVIDER, a);
      OncePass(a, provider, b);
      OncePass(b, GLOBAL_PROVIDER, c);
    }
  }

  lemma LoopsArePasses(m: Tags, provider: string, c: Tags)
    ensures LoopsLeave(m, provider, c) <==> Runs(m, PassesOf(provider), c)
  {
    hide LoopsLeave, PassLeaves, Runs;
    var d, g := DEVICE_PROVIDER, GLOBAL_PROVIDER;
    if provider == d {
      TwiceDevice(m, c);
      RunsTwo(m, Pass(d, 2), Pass(g, 1), c);
    } else if provider == g {
      TwiceGlobal(m, c);
      RunsTwo(m, Pass(d, 1), Pass(g, 2), c);
    } else if ':' in provider {
      WithoutProvider(m, provider, c);
      RunsTwo(m, Pass(d, 1), Pass(g, 1), c);
    } else {
      WithProvider(m, provider, c);
      RunsThree(m, Pass(d, 1), Pass(provider, 1), Pass(g, 1), c);
    }
  }

  // ---------------------------------------------------------------- what tags end with

  lemma PlainIsFree(y: string, qs: seq<Pass>)
    requires !HasProvider(y)
    ensures IsFree(y, qs)
  {
    forall i | 0 <= i < |qs| ensures !Belongs(y, qs[i].p) {
      NotOfP(y, qs[i].p);
    }
  }

  /** Of all that the loops may visit: the values a tag without a prefix can end with are the possible ones, and no others. */
  lemma OutcomesIff(m: Tags, provider: string, y: string, r: Option<string>)
    requires !HasProvider(y)
    ensures (exists v :: EndsWith(m, provider, v, y, r)) <==> Possible(m, PassesOf(provider), y, r)
  {
    hide AreIterations, AfterGlobal, Runs, Possible, PassesOf, LoopsLeave, HasProvider;
    var qs := PassesOf(provider);
    PassesOfAre(provider);
    PlainIsFree(y, qs);
    if v :| EndsWith(m, provider, v, y, r) {
      var c := AfterGlobal(m, provider, v);
      LoopsOfVisits(m, provider, c);
      LoopsArePasses(m, provider, c);
      OnlyPossible(m, qs, c, y);
    }
    if Possible(m, qs, y, r) {
      var c := AllPossible(m, qs, y, r);
      LoopsArePasses(m, provider, c);
      LoopsOfVisits(m, provider, c);
      var v :| AreIterations(m, provider, v) && c == AfterGlobal(m, provider, v);
      assert EndsWith(m, provider, v, y, r);
    }
  }

  ghost predicate EndsWith(m: Tags, provider: string, v: Visits, y: string, r: Option<string>) {
    AreIterations(m, provider, v) && Lookup(Pruned(AfterGlobal(m, provider, v)), y) == r
  }

  ghost predicate SameTags(m: Tags, provider: string, v: Visits, w: Visits) {
    Pruned(AfterGlobal(m, provider, v)) == Pruned(AfterGlobal(m, provider, w))
  }

  /** Two possible values of a tag without a prefix. */
  ghost predicate IsOpen(m: Tags, provider: string, y: string) {
    !HasProvider(y) && exists r, s :: r != s && Possible(m, PassesOf(provider), y, r) && Possible(m, PassesOf(provider), y, s)
  }

  /** The tags a device ends with depend on what the loops visit exactly when some tag has two possible values. */
  lemma SameTagsIff(m: Tags, provider: string)
    ensures (forall v, w :: AreIterations(m, provider, v) && AreIterations(m, provider, w) ==> SameTags(m, provider, v, w))
            <==> forall y :: !IsOpen(m, provider, y)
  {
    hide AreIterations, AfterGlobal, Possible, PassesOf, HasProvider;
    if y :| IsOpen(m, provider, y) {
      var r, s :| r != s && Possible(m, PassesOf(provider), y, r) && Possible(m, PassesOf(provider), y, s);
      OutcomesIff(m, provider, y, r);
      OutcomesIff(m, provider, y, s);
      var v :| EndsWith(m, provider, v, y, r);
      var w :| EndsWith(m, provider, w, y, s);
      assert !SameTags(m, provider, v, w);
    } else {
      forall v, w | AreIterations(m, provider, v) && AreIterations(m, provider, w) ensures SameTags(m, provider, v, w) {
        var a, b := Pruned(AfterGlobal(m, provider, v)), Pruned(AfterGlobal(m, provider, w));
        forall y ensures Lookup(a, y) == Lookup(b, y) {
          if !HasProvider(y) {
            assert EndsWith(m, provider, v, y, Lookup(a, y)) && EndsWith(m, provider, w, y, Lookup(b, y));
            OutcomesIff(m, provider, y, Lookup(a, y));
            OutcomesIff(m, provider, y, Lookup(b, y));
            assert !IsOpen(m, provider, y);
          }
        }
        SameLookups(a, b);
      }
    }
  }

  // ---------------------------------------------------------------- a repeat without an effect

  lemma ValueFromChain(m: Tags, qs: seq<Pass>, y: string, r: Option<string>)
    requires qs != [] && r.Some? && Possible(m, qs, y, r)
    ensures var n := |qs| - 1; exists k: nat :: Possible(m, qs[..n], Deep(qs[n].p, k, y), r)
  {
    hide Deep;
    var k: nat :| FirstAt(m, qs[..|qs| - 1], qs[|qs| - 1].p, y, k, r);
  }

  /** A value comes from a key with prefixes for the device, its provider and all devices, in this order and any number. */
  lemma ValueFromKey(m: Tags, provider: string, y: string, r: Option<string>) returns (i: nat, j: nat, k: nat)
    requires ':' !in provider && provider != DEVICE_PROVIDER && provider != GLOBAL_PROVIDER
    requires r.Some? && Possible(m, PassesOf(provider), y, r)
    ensures r == Lookup(m, Deep(DEVICE_PROVIDER, i, Deep(provider, j, Deep(GLOBAL_PROVIDER, k, y))))
  {
    hide Deep;
    var qs := PassesOf(provider);
    var d := Pass(DEVICE_PROVIDER, 1);
    assert qs[..2] == [d, Pass(provider, 1)] && qs[..2][..1] == [d] && [d][..0] == [];
    ValueFromChain(m, qs, y, r);
    k :| Possible(m, qs[..2], Deep(GLOBAL_PROVIDER, k, y), r);
    ValueFromChain(m, qs[..2], Deep(GLOBAL_PROVIDER, k, y), r);
    j :| Possible(m, [d], Deep(provider, j, Deep(GLOBAL_PROVIDER, k, y)), r);
    ValueFromChain(m, [d], Deep(provider, j, Deep(GLOBAL_PROVIDER, k, y)), r);
    i :| Possible(m, [], Deep(DEVICE_PROVIDER, i, Deep(provider, j, Deep(GLOBAL_PROVIDER, k, y))), r);
  }

  lemma NotBehindOther(y: string, p: string, q: string, j: nat, z: string)
    requires ':' !in p && Parts(y) == Some((q, z)) && q != p
    ensures forall x :: y == Deep(p, j, x) ==> j == 0 && x == y
  {
    hide Parts;
    forall x | y == Deep(p, j, x) ensures j == 0 && x == y {
      if j > 0 {
        DeepParts(p, j, x);
      }
    }
  }

  /** A tag with the prefix of the device twice, but behind it that of some other provider: in every order nothing is left. */
  lemma RepeatWithoutEffect() returns (m: Tags)
    ensures RepeatsOnTheWay(m, "foo") && forall y :: !IsOpen(m, "foo", y)
  {
    var other := Prefixed("z", "x");
    var key := Deep(DEVICE_PROVIDER, 2, other);
    m := map[key := "v"];
    PartsIff(other, "z", "x");
    DeepParts(DEVICE_PROVIDER, 2, other);
    DeepParts(DEVICE_PROVIDER, 1, other);
    hide Parts, Deep, Possible, PassesOf, HasProvider, Peel;
    assert IsRepeated(key, DEVICE_PROVIDER);
    assert key in m && RepeatsSomewhere(key, "foo");
    forall y ensures !IsOpen(m, "foo", y) {
      forall r: Option<string> {
        NothingReaches(m, other, key, y, r);
      }
    }
  }

  lemma NothingReaches(m: Tags, other: string, key: string, y: string, r: Option<string>)
    requires other == Prefixed("z", "x") && key == Deep(DEVICE_PROVIDER, 2, other) && m == map[key := "v"]
    requires Parts(other) == Some(("z", "x"))
    ensures !HasProvider(y) && r.Some? ==> !Possible(m, PassesOf("foo"), y, r)
  {
    hide Parts, Deep, Possible, PassesOf, HasProvider;
    if !HasProvider(y) && r.Some? && Possible(m, PassesOf("foo"), y, r) {
      var i, j, k := ValueFromKey(m, "foo", y, r);
      var behind := Deep("foo", j, Deep(GLOBAL_PROVIDER, k, y));
      FreeBehind(y, j, k);
      DeepUnique(DEVICE_PROVIDER, 2, other, i, behind);
      NotBehindOther(other, "foo", "z", j, "x");
      NotBehindOther(other, GLOBAL_PROVIDER, "z", k, "x");
      NotOfP(y, "z");
    }
  }

  lemma FreeBehind(y: string, j: nat, k: nat)
    requires !HasProvider(y)
    ensures !Belongs(Deep("foo", j, Deep(GLOBAL_PROVIDER, k, y)), DEVICE_PROVIDER)
  {
    hide Parts, Deep;
    assert DEVICE_PROVIDER[0] != GLOBAL_PROVIDER[0] && DEVICE_PROVIDER[0] != "foo"[0];
    if j > 0 {
      DeepParts("foo", j, Deep(GLOBAL_PROVIDER, k, y));
    } else {
      DeepNone("foo", Deep(GLOBAL_PROVIDER, k, y));
      if k > 0 {
        DeepParts(GLOBAL_PROVIDER, k, y);
      } else {
        DeepNone(GLOBAL_PROVIDER, y);
        NotOfP(y, DEVICE_PROVIDER);
      }
    }
  }
}
