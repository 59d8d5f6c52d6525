/** What all the records of a key add up to, whatever their order and batching. */
module RollupSums {
  import opened Totals
  import opened CacheModel

  /** Sum and count are not truncated here; `min` and `max` start from the rollup's own neutral values. */
  datatype Stats = Stats(sum: nat, count: nat, min: nat, max: nat)

  const NO_STATS := Stats(0, 0, MAX_UINT64, 0)

  function With(s: Stats, value: nat): Stats {
    Stats(s.sum + value, s.count + 1,
          if s.min > value then value else s.min, if s.max < value then value else s.max)
  }

  /** The statistics of the records with one key. */
  function StatsOf(os: seq<Obs>, key: string): Stats {
    if os == [] then NO_STATS
    else
      var before, last := StatsOf(os[..|os| - 1], key), os[|os| - 1];
      if last.key == key then With(before, last.value) else before
  }

  lemma {:induction false} StatsBoundRecords(os: seq<Obs>, key: string)
    requires forall i :: 0 <= i < |os| ==> os[i].value <= MAX_UINT64
    ensures var s := StatsOf(os, key);
            && (s.count > 0 <==> exists i :: 0 <= i < |os| && os[i].key == key)
            && (s.count > 0 ==> exists i :: 0 <= i < |os| && os[i].key == key && os[i].value == s.min)
            && (s.count > 0 ==> exists i :: 0 <= i < |os| && os[i].key == key && os[i].value == s.max)
            && forall i :: 0 <= i < |os| && os[i].key == key ==> s.min <= os[i].value <= s.max
  {
    if os != [] {
      var before := os[..|os| - 1];
      StatsBoundRecords(before, key);
      var s, t := StatsOf(before, key), StatsOf(os, key);
      assert forall i :: 0 <= i < |before| ==> before[i] == os[i];
      assert s.count > 0 || s == NO_STATS by { NoneCounted(before, key); }
    }
  }

  lemma {:induction false} NoneCounted(os: seq<Obs>, key: string)
    ensures StatsOf(os, key).count == 0 ==> StatsOf(os, key) == NO_STATS
  {
    if os != [] {
      NoneCounted(os[..|os| - 1], key);
    }
  }

  /** Moving a record to the end changes nothing. */
  lemma {:induction false} StatsMove(a: seq<Obs>, o: Obs, b: seq<Obs>, key: string)
    ensures StatsOf(a + [o] + b, key) == StatsOf(a + b + [o], key)
    decreases |b|
  {
    if b == [] {
      assert a + [o] + b == a + b + [o];
    } else {
      var c, p := b[..|b| - 1], b[|b| - 1];
      StatsMove(a, o, c, key);
      var x, y := a + [o] + b, a + b + [o];
      assert x[..|x| - 1] == a + [o] + c && x[|x| - 1] == p;
      assert y[..|y| - 1] == a + b && y[|y| - 1] == o;
      assert (a + b)[..|a + b| - 1] == a + c && (a + b)[|a + b| - 1] == p;
      var z := a + c + [o];
      assert z[..|z| - 1] == a + c && z[|z| - 1] == o;
    }
  }

  /** The statistics of a key depend on which records there were, not on their order. */
  lemma {:induction false} OrderDoesNotMatter(a: seq<Obs>, b: seq<Obs>, key: string)
    requires multiset(a) == multiset(b)
    ensures StatsOf(a, key) == StatsOf(b, key)
    decreases |a|
  {
    if a == [] {
      assert |multiset(b)| == 0;
    } else {
      hide With;
      var i := LastInPermutation(a, b);
      var l, o, r := b[..i], b[i], b[i + 1..];
      StatsMove(l, o, r, key);
      OrderDoesNotMatter(a[..|a| - 1], l + r, key);
      var z := l + r + [o];
      assert z[..|z| - 1] == l + r && z[|z| - 1] == o;
    }
  }

  // ---------------------------------------------------------------- the cache rollup

  function Untimed(os: seq<Timed>): seq<Obs> {
    seq(|os|, i requires 0 <= i < |os| => os[i].obs)
  }

  /** A cache entry holds the statistics of its key. */
  predicate Holds(e: Entry, s: Stats) {
    e.sum == U64(s.sum) && e.count == U64(s.count) && e.min == s.min && e.max == s.max
  }

  /** The cache has an entry for a key exactly when the key is not empty and was seen, and it holds its statistics. */
  ghost predicate Tracks(c: Cache, os: seq<Obs>, key: string) {
    var s := StatsOf(os, key);
    if key == "" || s.count == 0 then key !in c.entries
    else key in c.entries && Holds(c.entries[key], s)
  }

  lemma TouchHolds(e: Entry, s: Stats, o: Obs, now: int)
    requires Holds(e, s)
    ensures Holds(Touch(e, o, now, false), With(s, o.value))
  {
    AddMod(s.sum, o.value);
    AddMod(s.count, 1);
  }

  /**
   * Without emergency cleanup every entry of the cache is the fold of all records with its key since
   * the last export, however they were batched; by OrderDoesNotMatter, in whatever order they came.
   */
  lemma {:induction false} CacheTracks(limits: Limits, os: seq<Timed>, key: string)
    requires !limits.emergencyCleanup
    ensures Tracks(AddAll(limits, Cache(map[], 0), os, false), Untimed(os), key)
  {
    hide Touch, Holds, Estimate, With;
    if os != [] {
      var before, last := os[..|os| - 1], os[|os| - 1];
      CacheTracks(limits, before, key);
      assert Untimed(os)[..|os| - 1] == Untimed(before);
      var c, s := AddAll(limits, Cache(map[], 0), before, false), StatsOf(Untimed(before), key);
      if last.obs.key == key && key != "" {
        NoneCounted(Untimed(before), key);
        var e := if key in c.entries then c.entries[key] else FreshEntry(last.obs.provider, last.now);
        assert Holds(FreshEntry(last.obs.provider, last.now), NO_STATS) by { FreshHolds(last.obs.provider, last.now); }
        TouchHolds(e, s, last.obs, last.now);
        Counted(s, last.obs.value);
      }
    }
  }

  lemma FreshHolds(provider: string, now: int)
    ensures Holds(FreshEntry(provider, now), NO_STATS)
  {
  }

  lemma Counted(s: Stats, value: nat)
    ensures With(s, value).count > 0
  {
  }

  /** The positions of the records with a key. */
  ghost function OfKey(os: seq<Timed>, key: string): set<int> {
    set i | 0 <= i < |os| && os[i].obs.key == key
  }

  ghost predicate HasUnique(os: seq<Timed>, key: string, u: string) {
    exists i :: i in OfKey(os, key) && 0 <= i < |os| && u in os[i].obs.uniques
  }

  /** Of a unique rollup: an entry holds all unique values of the records with its key, and their number. */
  ghost predicate TracksUniques(c: Cache, os: seq<Timed>, key: string) {
    if key == "" || OfKey(os, key) == {} then key !in c.entries
    else
      && key in c.entries
      && (forall u :: u in c.entries[key].uniques <==> HasUnique(os, key, u))
      && c.entries[key].count == U64(|OfKey(os, key)|)
  }

  lemma OfKeyStep(os: seq<Timed>, o: Timed, key: string)
    ensures OfKey(os + [o], key) == OfKey(os, key) + if o.obs.key == key then {|os|} else {}
    ensures |OfKey(os + [o], key)| == |OfKey(os, key)| + if o.obs.key == key then 1 else 0
  {
    assert OfKey(os + [o], key) == OfKey(os, key) + if o.obs.key == key then {|os|} else {};
  }

  lemma UniqueStep(os: seq<Timed>, o: Timed, key: string, u: string)
    ensures HasUnique(os + [o], key, u) <==> HasUnique(os, key, u) || (o.obs.key == key && u in o.obs.uniques)
  {
    var all := os + [o];
    OfKeyStep(os, o, key);
    OfKeyBelow(os, key);
    hide OfKey;
    if o.obs.key == key && u in o.obs.uniques {
      assert |os| in OfKey(all, key) && u in all[|os|].obs.uniques;
    }
    if i :| i in OfKey(os, key) && u in os[i].obs.uniques {
      assert i in OfKey(all, key) && all[i] == os[i];
    }
    if i :| i in OfKey(all, key) && u in all[i].obs.uniques {
      assert i != |os| ==> i in OfKey(os, key) && all[i] == os[i];
    }
  }

  lemma OfKeyBelow(os: seq<Timed>, key: string)
    ensures forall i :: i in OfKey(os, key) ==> 0 <= i < |os|
  {
  }

  /** Without emergency cleanup a unique rollup holds, for each key, the unique values of all its records since the last export. */
  lemma {:induction false} CacheTracksUniques(limits: Limits, os: seq<Timed>, key: string)
    requires !limits.emergencyCleanup
    ensures TracksUniques(AddAll(limits, Cache(map[], 0), os, true), os, key)
  {
    hide Estimate;
    if os != [] {
      var before, last := os[..|os| - 1], os[|os| - 1];
      CacheTracksUniques(limits, before, key);
      assert os == before + [last];
      hide TracksUniques, AddOne;
      UniquesStep(limits, AddAll(limits, Cache(map[], 0), before, true), before, last, key);
    }
  }

  lemma UniquesStep(limits: Limits, c: Cache, before: seq<Timed>, last: Timed, key: string)
    requires !limits.emergencyCleanup && TracksUniques(c, before, key)
    ensures TracksUniques(AddOne(limits, c, last.obs, last.now, true), before + [last], key)
  {
    hide Estimate, U64, OfKey, HasUnique;
    OfKeyStep(before, last, key);
    forall u {
      UniqueStep(before, last, key, u);
    }
    NoUniques(before, key);
    var n := |OfKey(before, key)|;
    AddMod(n, 1);
    ZeroIs();
  }

  lemma ZeroIs()
    ensures U64(0) == 0
  {
  }

  lemma NoUniques(os: seq<Timed>, key: string)
    ensures OfKey(os, key) == {} ==> forall u :: !HasUnique(os, key, u)
  {
  }
}
