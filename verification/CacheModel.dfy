/**
 * The cache rollup as a value: one entry per key, an estimate of the memory the
 * entries take, and the emergency cleanup that throws out the older half.
 */
module CacheModel {
  import opened Totals

  /** What a rollup reads off one record: its key, its value, its provider and its unique values. */
  datatype Obs = Obs(key: string, value: nat, provider: string, uniques: set<string>)

  datatype Entry = Entry(sum: nat, count: nat, min: nat, max: nat, provider: string, uniques: set<string>, last: int)

  datatype Cache = Cache(entries: map<string, Entry>, memory: int)

  datatype Limits = Limits(emergencyCleanup: bool, maxMemoryMB: int, maxKeys: int)

  const CACHE_ENTRY_OVERHEAD := 150

  function FreshEntry(provider: string, now: int): Entry {
    Entry(0, 0, MAX_UINT64, 0, provider, {}, now)
  }

  function Touch(e: Entry, o: Obs, now: int, isUnique: bool): Entry {
    var f := e.(count := U64(e.count + 1), last := now);
    if isUnique then f.(uniques := f.uniques + o.uniques)
    else f.(sum := U64(f.sum + o.value),
            min := if f.min > o.value then o.value else f.min,
            max := if f.max < o.value then o.value else f.max)
  }

  /** estimateEntrySize. */
  ghost function Estimate(key: string, uniques: set<string>, isUnique: bool): nat {
    CACHE_ENTRY_OVERHEAD + |key|
    + if isUnique then 20 * |uniques| + Total(map k | k in uniques :: |k|) else 0
  }

  /** An entry is 150 bytes and its key; with unique values also 20 bytes and its text for each of them. */
  lemma EstimateGrows(key: string, uniques: set<string>, x: string, isUnique: bool)
    requires x !in uniques
    ensures Estimate(key, {}, isUnique) == 150 + |key|
    ensures Estimate(key, uniques + {x}, isUnique) == Estimate(key, uniques, isUnique) + if isUnique then 20 + |x| else 0
  {
    var none: set<string> := {};
    assert (map k | k in none :: |k|) == map[];
    var was := map k | k in uniques :: |k|;
    assert (map k | k in uniques + {x} :: |k|) == was[x := |x|];
    TotalWith(was, x, |x|);
  }

  ghost function Estimates(entries: map<string, Entry>, isUnique: bool): map<string, nat> {
    map k | k in entries :: Estimate(k, entries[k].uniques, isUnique)
  }

  // ---------------------------------------------------------------- emergency cleanup

  ghost function OlderThan(entries: map<string, Entry>, t: int): set<string> {
    set k | k in entries && entries[k].last < t
  }

  /** An entry survives when more than half of the entries are strictly older. */
  ghost predicate Survives(entries: map<string, Entry>, k: string)
    requires k in entries
  {
    |OlderThan(entries, entries[k].last)| > |entries| / 2
  }

  ghost function Survivors(entries: map<string, Entry>): map<string, Entry> {
    map k | k in entries && Survives(entries, k) :: entries[k]
  }

  ghost function Removed(entries: map<string, Entry>): map<string, Entry> {
    entries - Survivors(entries).Keys
  }

  ghost function Cleanup(c: Cache, isUnique: bool): Cache {
    Cache(Survivors(c.entries), c.memory - Total(Estimates(Removed(c.entries), isUnique)))
  }

  /** No survivor is as old as an entry that was removed. */
  lemma SurvivorsAreYounger(entries: map<string, Entry>, survivor: string, removed: string)
    requires survivor in Survivors(entries) && removed in Removed(entries)
    ensures entries[removed].last < entries[survivor].last
  {
    if entries[survivor].last <= entries[removed].last {
      SubsetSize(OlderThan(entries, entries[survivor].last), OlderThan(entries, entries[removed].last));
    }
  }

  lemma {:induction false} OldestOf(m: map<string, Entry>) returns (k: string)
    requires m != map[]
    ensures k in m && forall j :: j in m ==> m[k].last <= m[j].last
    decreases |m|
  {
    var p :| p in m;
    var rest := m - {p};
    k := p;
    if rest != map[] {
      var j := OldestOf(rest);
      k := if m[j].last < m[p].last then j else p;
    }
    assert forall i :: i in m ==> i == p || i in rest;
  }

  /** A cleanup removes at least half of the entries and one more. */
  lemma CleanupRemovesHalf(entries: map<string, Entry>)
    requires entries != map[]
    ensures |Removed(entries)| >= |entries| / 2 + 1
    ensures |Survivors(entries)| + |Removed(entries)| == |entries|
  {
    var s, r := Survivors(entries), Removed(entries);
    assert s.Keys + r.Keys == entries.Keys && s.Keys !! r.Keys;
    assert |s.Keys| + |r.Keys| == |entries.Keys|;
    assert |s| == |s.Keys| && |r| == |r.Keys| && |entries| == |entries.Keys|;
    if s != map[] {
      var k := OldestOf(s);
      assert forall j :: j in s ==> entries[k].last <= entries[j].last;
      SubsetSize(OlderThan(entries, entries[k].last), r.Keys);
    }
  }

  /** A cleanup empties the cache exactly when at most half of the entries are older than the newest one. */
  lemma CleanupEmptiesIff(entries: map<string, Entry>, newest: string)
    requires newest in entries && forall k :: k in entries ==> entries[k].last <= entries[newest].last
    ensures Survivors(entries) == map[] <==> |OlderThan(entries, entries[newest].last)| <= |entries| / 2
  {
    assert newest in Survivors(entries) <==> Survives(entries, newest);
    forall k | k in entries && Survives(entries, k) ensures Survives(entries, newest) {
      SubsetSize(OlderThan(entries, entries[k].last), OlderThan(entries, entries[newest].last));
    }
  }

  // ---------------------------------------------------------------- adding records

  predicate ShouldClean(limits: Limits, c: Cache) {
    && limits.emergencyCleanup
    && ((limits.maxMemoryMB > 0 && c.memory > limits.maxMemoryMB * 1024 * 1024)
        || (limits.maxKeys > 0 && |c.entries| > limits.maxKeys))
  }

  /** The cache with a new entry, before any cleanup. */
  ghost function Inserted(c: Cache, o: Obs, now: int, isUnique: bool): Cache {
    Cache(c.entries[o.key := FreshEntry(o.provider, now)], c.memory + Estimate(o.key, {}, isUnique))
  }

  /** A cleanup of a single entry indexes past its one age: the add panics. */
  ghost predicate Panics(limits: Limits, c: Cache, o: Obs, now: int, isUnique: bool) {
    && o.key != "" && o.key !in c.entries
    && ShouldClean(limits, Inserted(c, o, now, isUnique))
    && |c.entries| == 0
  }

  /** The cache that has, or had before its cleanup, an entry for the record. */
  ghost function Hold(limits: Limits, c: Cache, o: Obs, now: int, isUnique: bool): Cache {
    if o.key in c.entries then c
    else
      var d := Inserted(c, o, now, isUnique);
      if ShouldClean(limits, d) then Cleanup(d, isUnique) else d
  }

  /** The record counted in its entry, if that is still in the cache. */
  ghost function Count(c: Cache, o: Obs, now: int, isUnique: bool): Cache {
    if o.key in c.entries then c.(entries := c.entries[o.key := Touch(c.entries[o.key], o, now, isUnique)]) else c
  }

  /** One record. The entry it just made can be cleaned away again, and then nothing of the record is kept. */
  ghost function AddOne(limits: Limits, c: Cache, o: Obs, now: int, isUnique: bool): Cache {
    if o.key == "" then c else Count(Hold(limits, c, o, now, isUnique), o, now, isUnique)
  }

  /** A record and the time at which its batch was added. */
  datatype Timed = Timed(obs: Obs, now: int)

  ghost function AddAll(limits: Limits, c: Cache, os: seq<Timed>, isUnique: bool): Cache {
    if os == [] then c
    else
      var last := os[|os| - 1];
      AddOne(limits, AddAll(limits, c, os[..|os| - 1], isUnique), last.obs, last.now, isUnique)
  }

  /** A record is lost to the cleanup it causes exactly when too few entries are older than its batch. */
  lemma RecordLostIff(limits: Limits, c: Cache, o: Obs, now: int, isUnique: bool)
    requires o.key != "" && o.key !in c.entries
    ensures o.key !in AddOne(limits, c, o, now, isUnique).entries
            <==> && ShouldClean(limits, Inserted(c, o, now, isUnique))
                 && |OlderThan(c.entries, now)| <= (|c.entries| + 1) / 2
  {
    hide Touch, Estimate, Estimates, ShouldClean;
    var d := Inserted(c, o, now, isUnique);
    assert OlderThan(d.entries, now) == OlderThan(c.entries, now);
  }

  // ---------------------------------------------------------------- bounds

  /** Every add ends within the configured number of keys. */
  lemma AddKeepsMaxKeys(limits: Limits, c: Cache, o: Obs, now: int, isUnique: bool)
    requires limits.emergencyCleanup && limits.maxKeys > 0 && |c.entries| <= limits.maxKeys
    ensures |AddOne(limits, c, o, now, isUnique).entries| <= limits.maxKeys
  {
    hide Touch, Survivors, Removed, Estimate, Estimates;
    var held := Hold(limits, c, o, now, isUnique);
    if o.key != "" && o.key !in c.entries {
      CleanupRemovesHalf(Inserted(c, o, now, isUnique).entries);
    }
    assert o.key in held.entries ==> Count(held, o, now, isUnique).entries.Keys == held.entries.Keys;
  }

  lemma {:induction false} RunKeepsMaxKeys(limits: Limits, os: seq<Timed>, isUnique: bool)
    requires limits.emergencyCleanup && limits.maxKeys > 0
    ensures |AddAll(limits, Cache(map[], 0), os, isUnique).entries| <= limits.maxKeys
  {
    hide AddOne;
    if os != [] {
      var before, last := os[..|os| - 1], os[|os| - 1];
      RunKeepsMaxKeys(limits, before, isUnique);
      AddKeepsMaxKeys(limits, AddAll(limits, Cache(map[], 0), before, isUnique), last.obs, last.now, isUnique);
    }
  }

  /**
   * What a cleanup takes off the memory estimate beyond what was put on it: an entry is charged when it is
   * empty, and credited with its unique values when it goes.
   */
  ghost function OverCredit(entries: map<string, Entry>, isUnique: bool): int {
    Total(Estimates(Removed(entries), isUnique)) - Total(Estimates(Removed(entries), false))
  }

  ghost function OverCreditOne(limits: Limits, c: Cache, o: Obs, now: int, isUnique: bool): int {
    var d := Inserted(c, o, now, isUnique);
    if o.key == "" || o.key in c.entries || !ShouldClean(limits, d) then 0 else OverCredit(d.entries, isUnique)
  }

  ghost function OverCreditAll(limits: Limits, os: seq<Timed>, isUnique: bool): int {
    if os == [] then 0
    else
      var before, last := os[..|os| - 1], os[|os| - 1];
      OverCreditAll(limits, before, isUnique)
      + OverCreditOne(limits, AddAll(limits, Cache(map[], 0), before, isUnique), last.obs, last.now, isUnique)
  }

  ghost predicate Accounted(c: Cache, credit: int) {
    c.memory == Total(Estimates(c.entries, false)) - credit
  }

  lemma SurvivorsAccounted(c: Cache, credit: int, isUnique: bool)
    requires Accounted(c, credit)
    ensures Accounted(Cleanup(c, isUnique), credit + OverCredit(c.entries, isUnique))
  {
    hide Survives, Estimate;
    var kept, gone := Survivors(c.entries), Removed(c.entries);
    var all := Estimates(c.entries, false);
    assert Part(all, kept.Keys) == Estimates(kept, false) && Part(all, gone.Keys) == Estimates(gone, false);
    TotalSplits(all, kept.Keys, gone.Keys);
  }

  lemma OverCreditAtLeast(entries: map<string, Entry>, isUnique: bool)
    ensures OverCredit(entries, isUnique) >= 0
    ensures !isUnique ==> OverCredit(entries, isUnique) == 0
  {
    hide Survives;
    AtMostWhenUnique(Removed(entries), isUnique);
  }

  lemma AtMostWhenUnique(entries: map<string, Entry>, isUnique: bool)
    ensures Total(Estimates(entries, false)) <= Total(Estimates(entries, isUnique))
  {
    forall k | k in entries ensures Estimate(k, entries[k].uniques, false) <= Estimate(k, entries[k].uniques, isUnique) {
      MoreWhenUnique(k, entries[k].uniques);
    }
    TotalAtMost(Estimates(entries, false), Estimates(entries, isUnique));
  }

  lemma MoreWhenUnique(key: string, uniques: set<string>)
    ensures Estimate(key, uniques, false) == CACHE_ENTRY_OVERHEAD + |key| <= Estimate(key, uniques, true)
    ensures Estimate(key, {}, true) == Estimate(key, {}, false)
  {
    var none: set<string> := {};
    assert (map k | k in none :: |k|) == map[];
  }

  lemma InsertedAccounted(c: Cache, credit: int, o: Obs, now: int, isUnique: bool)
    requires Accounted(c, credit) && o.key !in c.entries
    ensures Accounted(Inserted(c, o, now, isUnique), credit)
  {
    hide Estimate;
    MoreWhenUnique(o.key, {});
    var e := Estimate(o.key, {}, false);
    assert Estimates(Inserted(c, o, now, isUnique).entries, false) == Estimates(c.entries, false)[o.key := e];
    TotalWith(Estimates(c.entries, false), o.key, e);
  }

  lemma CountAccounted(c: Cache, credit: int, o: Obs, now: int, isUnique: bool)
    requires Accounted(c, credit)
    ensures Accounted(Count(c, o, now, isUnique), credit)
  {
    assert Estimates(Count(c, o, now, isUnique).entries, false) == Estimates(c.entries, false);
  }

  lemma AddAccounted(limits: Limits, c: Cache, credit: int, o: Obs, now: int, isUnique: bool)
    requires Accounted(c, credit)
    ensures Accounted(AddOne(limits, c, o, now, isUnique), credit + OverCreditOne(limits, c, o, now, isUnique))
    ensures OverCreditOne(limits, c, o, now, isUnique) >= 0
    ensures !isUnique ==> OverCreditOne(limits, c, o, now, isUnique) == 0
  {
    hide Accounted, Cleanup, Inserted, Count, OverCredit;
    if o.key != "" {
      var made := Inserted(c, o, now, isUnique);
      OverCreditAtLeast(made.entries, isUnique);
      if o.key !in c.entries {
        InsertedAccounted(c, credit, o, now, isUnique);
        SurvivorsAccounted(made, credit, isUnique);
      }
      CountAccounted(Hold(limits, c, o, now, isUnique), credit + OverCreditOne(limits, c, o, now, isUnique), o, now, isUnique);
    }
  }

  /**
   * Over every run the memory estimate is what the entries were charged less what cleanups gave back too much:
   * so it never exceeds the entries' sizes, and equals them when there are no unique values.
   */
  lemma {:induction false} MemoryIsAccounted(limits: Limits, os: seq<Timed>, isUnique: bool)
    ensures var c, credit := AddAll(limits, Cache(map[], 0), os, isUnique), OverCreditAll(limits, os, isUnique);
            && c.memory == Total(Estimates(c.entries, false)) - credit
            && credit >= 0 && (!isUnique ==> credit == 0)
            && c.memory <= Total(Estimates(c.entries, isUnique))
            && (!isUnique ==> c.memory == Total(Estimates(c.entries, isUnique)))
  {
    hide AddOne, Estimate, OverCreditOne;
    var c := AddAll(limits, Cache(map[], 0), os, isUnique);
    if os == [] {
      assert Estimates(map[], false) == map[];
    } else {
      var before, last := os[..|os| - 1], os[|os| - 1];
      MemoryIsAccounted(limits, before, isUnique);
      AddAccounted(limits, AddAll(limits, Cache(map[], 0), before, isUnique), OverCreditAll(limits, before, isUnique),
                   last.obs, last.now, isUnique);
    }
    AtMostWhenUnique(c.entries, isUnique);
  }

  /** Adding batch by batch is adding all records. */
  lemma {:induction false} AddAllConcat(limits: Limits, c: Cache, a: seq<Timed>, b: seq<Timed>, isUnique: bool)
    ensures AddAll(limits, AddAll(limits, c, a, isUnique), b, isUnique) == AddAll(limits, c, a + b, isUnique)
    decreases |b|
  {
    hide AddOne;
    if b == [] {
      assert a + b == a;
    } else {
      var m := |b| - 1;
      AddAllConcat(limits, c, a, b[..m], isUnique);
      assert (a + b)[..|a + b| - 1] == a + b[..m] && (a + b)[|a + b| - 1] == b[m];
    }
  }

  // ---------------------------------------------------------------- panics

  /** No cleanup on the way through these records meets a cache of one entry. */
  ghost predicate NeverPanics(limits: Limits, c: Cache, os: seq<Timed>, isUnique: bool) {
    forall n :: 0 <= n < |os| ==> !PanicsAt(limits, c, os, isUnique, n)
  }

  ghost predicate PanicsAt(limits: Limits, c: Cache, os: seq<Timed>, isUnique: bool, n: nat)
    requires n < |os|
  {
    Panics(limits, AddAll(limits, c, os[..n], isUnique), os[n].obs, os[n].now, isUnique)
  }

  lemma NeverPanicsAt(limits: Limits, c: Cache, os: seq<Timed>, isUnique: bool, n: nat)
    requires n < |os| && NeverPanics(limits, c, os, isUnique)
    ensures !Panics(limits, AddAll(limits, c, os[..n], isUnique), os[n].obs, os[n].now, isUnique)
  {
    hide Panics, AddAll;
    assert !PanicsAt(limits, c, os, isUnique, n);
  }

  /** An add panics exactly when the cache is empty and its estimate with the new key is over the memory limit. */
  lemma PanicsIff(limits: Limits, c: Cache, o: Obs, now: int, isUnique: bool)
    ensures Panics(limits, c, o, now, isUnique)
            <==> && o.key != "" && c.entries == map[] && limits.emergencyCleanup && limits.maxMemoryMB > 0
                 && c.memory + CACHE_ENTRY_OVERHEAD + |o.key| > limits.maxMemoryMB * 1024 * 1024
  {
    if c.entries == map[] {
      MoreWhenUnique(o.key, {});
      assert |Inserted(c, o, now, isUnique).entries| == 1;
    }
  }

  /** A key whose empty entry is within the memory limit, or no such limit. */
  predicate KeyFits(limits: Limits, key: string) {
    limits.maxMemoryMB <= 0 || CACHE_ENTRY_OVERHEAD + |key| <= limits.maxMemoryMB * 1024 * 1024
  }

  /** Not even an empty cache is then too full for the key. */
  lemma FittingDoesNotPanic(limits: Limits, os: seq<Timed>, o: Obs, now: int, isUnique: bool)
    requires KeyFits(limits, o.key)
    ensures !Panics(limits, AddAll(limits, Cache(map[], 0), os, isUnique), o, now, isUnique)
  {
    hide Panics, AddAll, Accounted, Estimate;
    var c := AddAll(limits, Cache(map[], 0), os, isUnique);
    MemoryIsAccounted(limits, os, isUnique);
    PanicsIff(limits, c, o, now, isUnique);
    assert c.entries == map[] ==> Estimates(c.entries, isUnique) == map[];
  }

  /** From every state a run can reach, records whose keys fit are added without a panic. */
  lemma FittingNeverPanics(limits: Limits, before: seq<Timed>, os: seq<Timed>, isUnique: bool)
    requires forall i :: 0 <= i < |os| ==> KeyFits(limits, os[i].obs.key)
    ensures NeverPanics(limits, AddAll(limits, Cache(map[], 0), before, isUnique), os, isUnique)
  {
    hide Panics, AddAll, KeyFits;
    var c := AddAll(limits, Cache(map[], 0), before, isUnique);
    forall n | 0 <= n < |os| ensures !PanicsAt(limits, c, os, isUnique, n) {
      AddAllConcat(limits, Cache(map[], 0), before, os[..n], isUnique);
      FittingDoesNotPanic(limits, before + os[..n], os[n].obs, os[n].now, isUnique);
    }
  }

  /** With cleanups on, a first key that does not fit panics. */
  lemma FirstPanicsIff(limits: Limits, o: Timed, isUnique: bool)
    ensures Panics(limits, Cache(map[], 0), o.obs, o.now, isUnique)
            <==> limits.emergencyCleanup && o.obs.key != "" && !KeyFits(limits, o.obs.key)
  {
    PanicsIff(limits, Cache(map[], 0), o.obs, o.now, isUnique);
  }

  /** A key that comes to an empty cache and is over the memory limit even after all that cleanups gave back too much. */
  ghost predicate ExceedsEmpty(limits: Limits, os: seq<Timed>, isUnique: bool, n: nat)
    requires n < |os|
  {
    && os[n].obs.key != "" && AddAll(limits, Cache(map[], 0), os[..n], isUnique).entries == map[]
    && limits.maxMemoryMB > 0
    && CACHE_ENTRY_OVERHEAD + |os[n].obs.key| - OverCreditAll(limits, os[..n], isUnique) > limits.maxMemoryMB * 1024 * 1024
  }

  /** With or without unique values a run panics exactly when cleanups are on and a key exceeds an empty cache. */
  lemma RunPanicsIff(limits: Limits, os: seq<Timed>, isUnique: bool)
    ensures !NeverPanics(limits, Cache(map[], 0), os, isUnique)
            <==> limits.emergencyCleanup && exists n :: 0 <= n < |os| && ExceedsEmpty(limits, os, isUnique, n)
  {
    hide Panics, AddAll, ExceedsEmpty;
    forall n: nat | n < |os|
      ensures PanicsAt(limits, Cache(map[], 0), os, isUnique, n)
              <==> limits.emergencyCleanup && ExceedsEmpty(limits, os, isUnique, n)
    {
      EmptyPanicsIff(limits, os, isUnique, n);
    }
  }

  lemma EmptyPanicsIff(limits: Limits, os: seq<Timed>, isUnique: bool, n: nat)
    requires n < |os|
    ensures PanicsAt(limits, Cache(map[], 0), os, isUnique, n)
            <==> limits.emergencyCleanup && ExceedsEmpty(limits, os, isUnique, n)
  {
    hide Panics, AddAll, Estimate, OverCreditAll;
    var c := AddAll(limits, Cache(map[], 0), os[..n], isUnique);
    MemoryIsAccounted(limits, os[..n], isUnique);
    PanicsIff(limits, c, os[n].obs, os[n].now, isUnique);
    assert c.entries == map[] ==> Estimates(c.entries, false) == map[];
  }

  /** Without unique values the only keys that exceed an empty cache are those over the limit on their own. */
  lemma ExceedsWithoutUniques(limits: Limits, os: seq<Timed>, n: nat)
    requires n < |os|
    ensures ExceedsEmpty(limits, os, false, n)
            <==> && os[n].obs.key != "" && AddAll(limits, Cache(map[], 0), os[..n], false).entries == map[]
                 && !KeyFits(limits, os[n].obs.key)
  {
    hide AddAll, OverCreditAll;
    MemoryIsAccounted(limits, os[..n], false);
  }

  // ---------------------------------------------------------------- one lost record

  lemma EmptiesCache(limits: Limits, c: Cache, o: Obs, key: string, now: int)
    requires limits == Limits(true, 0, 1) && o.key != "" && c.entries.Keys == {key} && o.key != key
    requires c.entries[key].last == now
    ensures AddOne(limits, c, o, now, false).entries == map[]
  {
    hide Estimate, Estimates, Touch, Survivors;
    var d := Inserted(c, o, now, false);
    assert d.entries.Keys == {key, o.key} && |d.entries| == |d.entries.Keys|;
    assert OlderThan(d.entries, now) == {};
    CleanupEmptiesIff(d.entries, o.key);
  }

  /** A second key over a limit of one, in the batch that made the first: the cleanup takes both, and the record is lost. */
  lemma LosesRecord()
    ensures var limits := Limits(true, 0, 1);
            var first, second := Obs("a", 7, "", {}), Obs("b", 7, "", {});
            var c := AddOne(limits, Cache(map[], 0), first, 5, false);
            && "a" in c.entries && c.entries["a"].sum == 7
            && AddOne(limits, c, second, 5, false).entries == map[]
  {
    hide Estimate, Cleanup;
    var limits, first := Limits(true, 0, 1), Obs("a", 7, "", {});
    var c := AddOne(limits, Cache(map[], 0), first, 5, false);
    assert c.entries.Keys == {"a"};
    EmptiesCache(limits, c, Obs("b", 7, "", {}), "a", 5);
  }
}
