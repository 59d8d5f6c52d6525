/** The cache rollup in its own form: a map of entries that Add, Export and the cleanup update in place. */
module CacheRollups {
  import opened Filters
  import opened Totals
  import opened RollupKeys
  import opened RollupRows
  import opened CacheModel
  import opened Ranking

  class CacheEntry {
    const key: string
    const provider: string
    var sum: nat
    var count: nat
    var min: nat
    var max: nat
    var uniqueVals: set<string>
    var lastUpdated: int

    constructor (key: string, provider: string, now: int)
      ensures this.key == key && View() == FreshEntry(provider, now)
      ensures sum == 0 && count == 0 && min == 0xFFFF_FFFF_FFFF_FFFF && max == 0 && uniqueVals == {}
      ensures this.provider == provider && lastUpdated == now
    {
      this.key, this.provider, this.lastUpdated := key, provider, now;
      this.sum, this.count, this.min, this.max, this.uniqueVals := 0, 0, MAX_UINT64, 0, {};
    }

    function View(): Entry
      reads this
    {
      Entry(sum, count, min, max, provider, uniqueVals, lastUpdated)
    }

    method AddStatValues(value: nat)
      modifies this
      ensures View() == old(View()).(sum := U64(old(sum) + value),
                                     min := if old(min) > value then value else old(min),
                                     max := if old(max) < value then value else old(max))
    {
      sum := U64(sum + value);
      if min > value {
        min := value;
      }
      if max < value {
        max := value;
      }
    }

    /** Counts one record: its unique values, or its value. */
    method Update(rules: Rules, row: Row, now: int, isUnique: bool)
      requires ValidDimensions(rules.dims)
      modifies this
      ensures View() == Touch(old(View()), ObsOf(rules, row), now, isUnique)
      ensures count == (old(count) + 1) % 0x1_0000_0000_0000_0000 && lastUpdated == now
      ensures if isUnique then
                && sum == old(sum) && min == old(min) && max == old(max)
                && forall text :: text in uniqueVals <==> text in old(uniqueVals) || IsUniqueOf(rules, row, text)
              else
                && uniqueVals == old(uniqueVals)
                && exists value: nat :: IsValueOf(rules, row, value) && sum == (old(sum) + value) % 0x1_0000_0000_0000_0000
                     && min == (if value < old(min) then value else old(min))
                     && max == (if value > old(max) then value else old(max))
    {
      TouchIs(View(), rules, row, now);
      hide IsValueOf, IsUniqueOf, ValueOf, UniquesOf, KeyOf, U64;
      lastUpdated := now;
      count := U64(count + 1);
      if isUnique {
        uniqueVals := uniqueVals + UniquesOf(rules, row);
      } else {
        var value := ComputeValue(rules, row);
        AddStatValues(value);
      }
    }
  }

  /** One record in terms of its columns. */
  lemma TouchIs(e: Entry, rules: Rules, row: Row, now: int)
    requires ValidDimensions(rules.dims)
    ensures var f := Touch(e, ObsOf(rules, row), now, true);
            && f == e.(count := (e.count + 1) % 0x1_0000_0000_0000_0000, last := now, uniques := f.uniques)
            && forall text :: text in f.uniques <==> text in e.uniques || IsUniqueOf(rules, row, text)
    ensures var f, value := Touch(e, ObsOf(rules, row), now, false), ValueOf(rules, row);
            && IsValueOf(rules, row, value)
            && f == e.(count := (e.count + 1) % 0x1_0000_0000_0000_0000, last := now, sum := (e.sum + value) % 0x1_0000_0000_0000_0000,
                       min := if value < e.min then value else e.min, max := if value > e.max then value else e.max)
  {
    hide IsValueOf, IsUniqueOf, KeyOf, UniquesOf, ValueOf;
    ValueIs(rules, row);
    forall text ensures text in UniquesOf(rules, row) <==> IsUniqueOf(rules, row, text) {
      UniquesOfIff(rules, row, text);
    }
  }

  lemma EntriesWith(cache: map<string, CacheEntry>, key: string, entry: CacheEntry)
    ensures EntriesOf(cache[key := entry]) == EntriesOf(cache)[key := entry.View()]
  {
  }

  /** An update of one entry shows in the cache only if the entry is still in it. */
  lemma EntriesAfterUpdate(cache: map<string, CacheEntry>, before: map<string, Entry>, entry: CacheEntry)
    requires forall k :: k in cache ==> cache[k].key == k
    requires entry.key in cache ==> cache[entry.key] == entry
    requires before.Keys == cache.Keys
    requires forall k :: k in cache && cache[k] != entry ==> cache[k].View() == before[k]
    ensures EntriesOf(cache) == if entry.key in cache then before[entry.key := entry.View()] else before
  {
  }

  /** The entries of a cache as values. */
  ghost function EntriesOf(cache: map<string, CacheEntry>): map<string, Entry>
    reads cache.Values
  {
    map k | k in cache :: cache[k].View()
  }

  lemma EntriesOfKeys(cache: map<string, CacheEntry>)
    ensures EntriesOf(cache).Keys == cache.Keys && |EntriesOf(cache)| == |cache|
  {
    assert |EntriesOf(cache)| == |EntriesOf(cache).Keys|;
    assert |cache| == |cache.Keys|;
  }

  lemma EntriesWithout(cache: map<string, CacheEntry>, ks: set<string>)
    ensures EntriesOf(cache - ks) == EntriesOf(cache) - ks
  {
  }

  ghost function OlderAmong(entries: map<string, Entry>, keys: seq<string>, t: int): set<string>
    requires forall i :: 0 <= i < |keys| ==> keys[i] in entries
  {
    set k | k in keys && entries[k].last < t
  }

  /** The ages of some entries, listed in the order of their keys. */
  ghost predicate AgesOf(entries: map<string, Entry>, keys: seq<string>, ages: seq<int>, now: int) {
    && |keys| == |ages|
    && (forall i :: 0 <= i < |keys| ==> keys[i] in entries && ages[i] == now - entries[keys[i]].last)
    && (forall i, j :: 0 <= i < j < |keys| ==> keys[i] != keys[j])
  }

  lemma OlderAmongStep(entries: map<string, Entry>, keys: seq<string>, key: string, t: int)
    requires (forall i :: 0 <= i < |keys| ==> keys[i] in entries) && key in entries && key !in keys
    ensures |OlderAmong(entries, keys + [key], t)| == |OlderAmong(entries, keys, t)| + if entries[key].last < t then 1 else 0
  {
    var was, all := OlderAmong(entries, keys, t), OlderAmong(entries, keys + [key], t);
    assert all == if entries[key].last < t then was + {key} else was;
  }

  lemma {:induction false} AgesCountOlder(entries: map<string, Entry>, keys: seq<string>, ages: seq<int>, now: int, t: int)
    requires AgesOf(entries, keys, ages, now)
    ensures CountAbove(ages, now - t) == |OlderAmong(entries, keys, t)|
  {
    if keys != [] {
      var n := |keys| - 1;
      AgesCountOlder(entries, keys[..n], ages[..n], now, t);
      OlderAmongStep(entries, keys[..n], keys[n], t);
      assert keys == keys[..n] + [keys[n]];
    }
  }

  /** Younger than the age at the middle, from the oldest down, is younger than more than half of the entries. */
  lemma ThresholdIsMiddle(entries: map<string, Entry>, keys: seq<string>, ages: seq<int>, sorted: seq<int>, now: int, k: string)
    requires AgesOf(entries, keys, ages, now)
    requires forall j :: j in entries ==> j in keys
    requires multiset(sorted) == multiset(ages) && forall i, j :: 0 <= i < j < |sorted| ==> sorted[i] >= sorted[j]
    requires |entries| / 2 < |sorted| && k in entries
    ensures now - entries[k].last < sorted[|entries| / 2] <==> Survives(entries, k)
  {
    hide CountAbove;
    var t := entries[k].last;
    AgesCountOlder(entries, keys, ages, now, t);
    CountPermuted(sorted, ages, now - t);
    AboveAtIff(sorted, |entries| / 2, now - t);
    assert OlderAmong(entries, keys, t) == OlderThan(entries, t);
  }

  class CacheRollup {
    const rules: Rules
    const limits: Limits
    const isUnique: bool
    const topK: int
    const float64: nat -> real
    const filters: seq<Row -> bool>
    var cache: map<string, CacheEntry>
    var memoryUsage: int

    ghost predicate Valid()
      reads this, cache.Values
    {
      && ValidDimensions(rules.dims)
      && forall k :: k in cache ==> cache[k].key == k
    }

    ghost function View(): Cache
      reads this, cache.Values
    {
      Cache(EntriesOf(cache), memoryUsage)
    }

    constructor (rules: Rules, limits: Limits, isUnique: bool, topK: int, float64: nat -> real, filters: seq<Row -> bool>)
      requires ValidDimensions(rules.dims)
      ensures Valid() && View() == Cache(map[], 0)
      ensures this.rules == rules && this.limits == limits && this.isUnique == isUnique
    {
      this.rules, this.limits, this.isUnique, this.topK, this.float64, this.filters := rules, limits, isUnique, topK, float64, filters;
      cache, memoryUsage := map[], 0;
    }

    method EstimateEntrySize(entry: CacheEntry) returns (size: nat)
      ensures size == Estimate(entry.key, entry.uniqueVals, isUnique)
    {
      size := CACHE_ENTRY_OVERHEAD + |entry.key|;
      if isUnique {
        size := size + |entry.uniqueVals| * 20;
        ghost var base := size;
        ghost var done: set<string> := {};
        var todo := entry.uniqueVals;
        assert (map k | k in done :: |k|) == map[];
        while todo != {}
          invariant done !! todo && done + todo == entry.uniqueVals
          invariant size == base + Total(map k | k in done :: |k|)
        {
          var k :| k in todo;
          TotalWith(map j | j in done :: |j|, k, |k|);
          assert (map j | j in done + {k} :: |j|) == (map j | j in done :: |j|)[k := |k|];
          size, todo, done := size + |k|, todo - {k}, done + {k};
        }
        assert done == entry.uniqueVals;
      }
    }

    method ShouldDoEmergencyCleanup() returns (yes: bool)
      ensures yes == ShouldClean(limits, View())
      ensures yes <==> limits.emergencyCleanup
                       && (|| (limits.maxMemoryMB > 0 && memoryUsage > limits.maxMemoryMB * 0x10_0000)
                           || (limits.maxKeys > 0 && |cache| > limits.maxKeys))
    {
      EntriesOfKeys(cache);
      if !limits.emergencyCleanup {
        return false;
      }
      if limits.maxMemoryMB > 0 {
        var maxBytes := limits.maxMemoryMB * 1024 * 1024;
        if memoryUsage > maxBytes {
          return true;
        }
      }
      if limits.maxKeys > 0 && |cache| > limits.maxKeys {
        return true;
      }
      return false;
    }

    /** The ages of all entries, in whatever order the map gives them. */
    method Ages(now: int) returns (ages: seq<int>, ghost keys: seq<string>)
      ensures AgesOf(EntriesOf(cache), keys, ages, now) && |ages| == |cache|
      ensures forall k :: k in cache ==> k in keys
    {
      ages, keys := [], [];
      var todo := cache.Keys;
      while todo != {}
        invariant todo <= cache.Keys && |keys| == |ages| && |ages| + |todo| == |cache|
        invariant forall i :: 0 <= i < |keys| ==> keys[i] in cache && ages[i] == now - cache[keys[i]].lastUpdated
        invariant forall i, j :: 0 <= i < j < |keys| ==> keys[i] != keys[j]
        invariant forall k :: k in cache ==> (k in todo <==> k !in keys)
      {
        var k :| k in todo;
        ages := ages + [now - cache[k].lastUpdated];
        keys := keys + [k];
        todo := todo - {k};
      }
    }

    /** The age at the middle of the entries, from the oldest down. */
    method AgeThreshold(now: int) returns (threshold: int)
      requires |cache| >= 2
      ensures forall k :: k in cache ==> (now - cache[k].lastUpdated < threshold <==> Survives(EntriesOf(cache), k))
    {
      hide Survives, AgesOf;
      var ages, keys := Ages(now);
      var asReal := (a: int) => a as real;
      var sorted := SortDescending(ages, asReal);
      assert forall i, j :: 0 <= i < j < |sorted| ==> asReal(sorted[i]) >= asReal(sorted[j]);
      var thresholdIndex := |ages| / 2;
      if thresholdIndex < 1 {
        thresholdIndex := 1;
      }
      threshold := sorted[thresholdIndex];
      EntriesOfKeys(cache);
      forall k | k in cache ensures now - cache[k].lastUpdated < threshold <==> Survives(EntriesOf(cache), k) {
        ThresholdIsMiddle(EntriesOf(cache), keys, ages, sorted, now, k);
      }
    }

    /** Everything at least as old as the threshold goes, and its estimate with it. */
    method Sweep(now: int, ageThreshold: int) returns (kept: map<string, CacheEntry>, memory: int)
      requires Valid()
      requires forall k :: k in cache ==> (now - cache[k].lastUpdated < ageThreshold <==> Survives(EntriesOf(cache), k))
      ensures kept == cache - Doomed(EntriesOf(cache))
      ensures memory == memoryUsage - Total(Estimates(Part(EntriesOf(cache), Doomed(EntriesOf(cache))), isUnique))
    {
      hide Survives, Estimate, Total, Estimates, Part;
      ghost var was := EntriesOf(cache);
      kept, memory := cache, memoryUsage;
      var todo := cache.Keys;
      ghost var removed: set<string> := {};
      NothingRemoved(was, isUnique);
      while todo != {}
        invariant todo <= was.Keys && removed == Doomed(was) - todo
        invariant kept == cache - removed
        invariant memory == memoryUsage - Total(Estimates(Part(was, removed), isUnique))
      {
        var key :| key in todo;
        var entry := kept[key];
        if now - entry.lastUpdated >= ageThreshold {
          var size := EstimateEntrySize(entry);
          OneMoreRemoved(was, removed, key, isUnique);
          memory := memory - size;
          kept := kept - {key};
          removed := removed + {key};
        }
        todo := todo - {key};
      }
      assert removed == Doomed(was);
    }

    method DoEmergencyCleanup(now: int)
      requires Valid() && |cache| != 1
      modifies this
      ensures Valid() && View() == Cleanup(old(View()), isUnique)
      ensures cache.Keys <= old(cache.Keys) && forall k :: k in cache ==> cache[k] == old(cache[k])
    {
      hide Survives, Estimate, Total, Estimates, Part, Doomed, EntriesOf;
      ghost var was := EntriesOf(cache);
      EntriesOfKeys(cache);
      DoomedAreRemoved(was);
      if |cache| == 0 {
        EmptyCleanup(was, memoryUsage, isUnique);
        return;
      }
      var ageThreshold := AgeThreshold(now);
      var kept, memory := Sweep(now, ageThreshold);
      EntriesWithout(cache, Doomed(was));
      cache, memoryUsage := kept, memory;
    }

    method MakeEntry(key: string, provider: string, now: int, ghost o: Obs) returns (entry: CacheEntry)
      requires Valid() && o.key == key && o.provider == provider && key !in cache
      modifies this
      ensures Valid() && View() == Inserted(old(View()), o, now, isUnique)
      ensures fresh(entry) && cache == old(cache)[key := entry] && entry.key == key
      ensures entry.View() == FreshEntry(provider, now)
    {
      hide EntriesOf, Estimate, Inserted;
      ghost var was := View();
      entry := new CacheEntry(key, provider, now);
      EntriesWith(cache, key, entry);
      var size := EstimateEntrySize(entry);
      cache, memoryUsage := cache[key := entry], memoryUsage + size;
      InsertedIs(was, o, now, isUnique);
    }

    /** The entry a record counts in; a new one may be swept away by the cleanup it sets off. */
    method FindOrMake(key: string, provider: string, now: int, ghost o: Obs) returns (entry: CacheEntry)
      requires Valid() && o.key == key && o.provider == provider && key != ""
      requires !Panics(limits, View(), o, now, isUnique)
      modifies this
      ensures Valid() && View() == Hold(limits, old(View()), o, now, isUnique)
      ensures fresh(cache.Values - old(cache.Values)) && (entry in old(cache.Values) || fresh(entry))
      ensures entry.key == key && (key in cache ==> cache[key] == entry)
      ensures entry.View() == if key in old(cache) then old(EntriesOf(cache)[key]) else FreshEntry(provider, now)
    {
      hide EntriesOf, Cleanup, Estimate, Inserted, ShouldClean, Panics, Hold, FreshEntry;
      EntriesOfKeys(cache);
      HoldIs(limits, View(), o, now, isUnique);
      if key in cache {
        EntryAt(cache, key);
        return cache[key];
      }
      entry := MakeEntry(key, provider, now, o);
      var clean := ShouldDoEmergencyCleanup();
      if clean {
        EntriesOfKeys(cache);
        DoEmergencyCleanup(now);
      }
    }

    /** Finds the entry of a record that has a key, and counts the record in it. */
    method CountRow(key: string, row: Row, now: int, ghost o: Obs)
      requires Valid() && o == ObsOf(rules, row) && key == o.key != "" && o.provider == row.provider
      requires !Panics(limits, View(), o, now, isUnique)
      modifies this, cache.Values
      ensures Valid() && View() == Count(Hold(limits, old(View()), o, now, isUnique), o, now, isUnique)
      ensures fresh(cache.Values - old(cache.Values))
    {
      hide EntriesOf, Hold, ValueOf, KeyOf, UniquesOf, Touch, Panics, ObsOf, FreshEntry;
      var entry := FindOrMake(key, row.provider, now, o);
      ghost var h, was := View(), entry.View();
      EntriesOfKeys(cache);
      forall k | k in cache ensures h.entries[k] == cache[k].View() {
        EntryAt(cache, k);
      }
      entry.Update(rules, row, now, isUnique);
      EntriesAfterUpdate(cache, h.entries, entry);
    }

    method AddRow(row: Row, now: int)
      requires Valid() && !Panics(limits, View(), ObsOf(rules, row), now, isUnique)
      modifies this, cache.Values
      ensures Valid() && View() == AddOne(limits, old(View()), ObsOf(rules, row), now, isUnique)
      ensures fresh(cache.Values - old(cache.Values))
    {
      hide EntriesOf, Hold, Count, ValueOf, KeyOf, UniquesOf, Panics;
      var key := GetKey(row.fields, rules.dims, rules.token, rules.keepUndefined);
      if key == "" {
        return;
      }
      CountRow(key, row, now, ObsOf(rules, row));
    }

    /** Adds the records that pass the filters. */
    method Add(batch: seq<Row>, now: int)
      requires Valid() && NeverPanics(limits, View(), Stamped(rules, Passing(batch, filters), now), isUnique)
      modifies this, cache.Values
      ensures Valid() && View() == AddAll(limits, old(View()), Stamped(rules, Passing(batch, filters), now), isUnique)
      ensures fresh(cache.Values - old(cache.Values))
    {
      hide AddAll, NeverPanics, Stamped, Passing;
      NoFilters(batch);
      var rows := batch;
      if filters != [] {
        rows := Reduce(batch, filters);
      }
      AddRows(rows, now);
    }

    method AddRows(rows: seq<Row>, now: int)
      requires Valid() && NeverPanics(limits, View(), Stamped(rules, rows, now), isUnique)
      modifies this, cache.Values
      ensures Valid() && View() == AddAll(limits, old(View()), Stamped(rules, rows, now), isUnique)
      ensures fresh(cache.Values - old(cache.Values))
    {
      hide AddOne, Panics, ValueOf, KeyOf, UniquesOf, EntriesOf;
      ghost var was, all := View(), Stamped(rules, rows, now);
      for n := 0 to |rows|
        invariant Valid() && View() == AddAll(limits, was, all[..n], isUnique)
        invariant fresh(cache.Values - old(cache.Values))
      {
        NeverPanicsAt(limits, was, all, isUnique, n);
        assert all[..n + 1][..n] == all[..n];
        AddRow(rows[n], now);
      }
      assert all[..|rows|] == all;
    }

    /** One rollup for each entry, in whatever order the map gives them. */
    method RollupsFrom(entries: map<string, CacheEntry>) returns (all: seq<Rollup>)
      requires forall k :: k in entries ==> entries[k].key == k
      ensures ListsRollups(all, RollupsOf(this, EntriesOf(entries)), entries.Keys)
    {
      hide Join, ListsRollups;
      all := [];
      var fullName := Join(rules.names, ";");
      var todo := entries.Keys;
      ghost var done: set<string>, rollups := {}, RollupsOf(this, EntriesOf(entries));
      ListsNoRollups(rollups);
      while todo != {}
        invariant done !! todo && done + todo == entries.Keys && ListsRollups(all, rollups, done)
      {
        var k :| k in todo;
        var entry := entries[k];
        var metric := if isUnique then float64(|entry.uniqueVals|) else float64(entry.sum);
        var rollup := Rollup(fullName, entry.key, metric, entry.count, entry.min, entry.max, entry.provider);
        assert rollup == rollups[k];
        ListsOneMore(all, rollups, done, k);
        all := all + [rollup];
        todo, done := todo - {k}, done + {k};
      }
      assert done == entries.Keys;
    }

    /** Exports the best rollups, and leaves an empty cache to go on with. */
    method Export() returns (rollups: seq<Rollup>)
      requires Valid()
      modifies this
      ensures Valid() && View() == Cache(map[], 0)
      ensures IsExport(rollups, RollupsOf(this, old(EntriesOf(cache))), topK)
      ensures ReportsEntries(rollups, this, old(EntriesOf(cache)))
    {
      hide ReportsEntries, RollupsOf, IsTop, ListsRollups, IsExport, EntriesOf;
      ghost var entries := EntriesOf(cache);
      EntriesOfKeys(cache);
      RollupsKeys(this, entries);
      var oldCache := cache;
      cache, memoryUsage := map[], 0;
      NoEntries();
      if |oldCache| == 0 {
        NothingToExport(RollupsOf(this, entries), topK);
        EntriesReported([], this, entries);
        return [];
      }
      var all := RollupsFrom(oldCache);
      rollups := TopK(all, topK);
      ExportOf(all, rollups, RollupsOf(this, entries), topK);
      EntriesReported(rollups, this, entries);
    }
  }

  /** What the metric of an entry counts: its unique values, or the sum of its values. */
  function Counted(e: Entry, isUnique: bool): nat {
    if isUnique then |e.uniques| else e.sum
  }

  /** The best entries, each with its key, its metric and its statistics. */
  ghost predicate ReportsEntries(rollups: seq<Rollup>, c: CacheRollup, entries: map<string, Entry>) {
    && |rollups| == (if 0 < c.topK < |entries| then c.topK else |entries|)
    && (forall r :: r in rollups ==>
          && r.dimension in entries && r.name == Join(c.rules.names, ";")
          && var e := entries[r.dimension];
          && r.metric == c.float64(Counted(e, c.isUnique))
          && r.count == e.count && r.min == e.min && r.max == e.max && r.provider == e.provider)
    && (forall j, k :: 0 <= j < k < |rollups| ==> rollups[j].metric >= rollups[k].metric && rollups[j].dimension != rollups[k].dimension)
    && forall key, r :: r in rollups && key in entries && LeftOut(rollups, key) ==>
         r.metric >= c.float64(Counted(entries[key], c.isUnique))
  }

  lemma EntryRollup(c: CacheRollup, entries: map<string, Entry>, key: string)
    requires key in entries
    ensures var all, e := RollupsOf(c, entries), entries[key];
            && key in all
            && all[key] == Rollup(Join(c.rules.names, ";"), key, c.float64(Counted(e, c.isUnique)), e.count, e.min, e.max, e.provider)
  {
  }

  lemma EntriesReported(rollups: seq<Rollup>, c: CacheRollup, entries: map<string, Entry>)
    requires IsExport(rollups, RollupsOf(c, entries), c.topK)
    ensures ReportsEntries(rollups, c, entries)
  {
    hide IsExport, Join, RollupsOf, Counted, LeftOut;
    var all := RollupsOf(c, entries);
    RollupsKeys(c, entries);
    forall key | key in entries {
      EntryRollup(c, entries, key);
    }
    assert |all| == |all.Keys| && |entries| == |entries.Keys|;
    ExportKeepsBest(rollups, all, c.topK);
  }

  lemma NoEntries()
    ensures EntriesOf(map[]) == map[]
  {
  }

  lemma RollupsKeys(r: CacheRollup, entries: map<string, Entry>)
    ensures RollupsOf(r, entries).Keys == entries.Keys && (entries == map[] ==> RollupsOf(r, entries) == map[])
  {
  }

  lemma NothingToExport(rollups: map<string, Rollup>, k: int)
    requires rollups == map[]
    ensures IsExport([], rollups, k)
  {
    ListsNoRollups(rollups);
    assert Divides([], [], []);
    assert IsTop([], [], k);
  }

  /** The records of one batch, all at the time of the batch. */
  ghost function Stamped(rules: Rules, rows: seq<Row>, now: int): seq<Timed>
    requires ValidDimensions(rules.dims)
  {
    seq(|rows|, i requires 0 <= i < |rows| => Timed(ObsOf(rules, rows[i]), now))
  }

  /** What an export says of one entry. */
  ghost function RollupOf(r: CacheRollup, key: string, e: Entry): Rollup {
    Rollup(Join(r.rules.names, ";"), key, r.float64(if r.isUnique then |e.uniques| else e.sum),
           e.count, e.min, e.max, e.provider)
  }

  ghost function RollupsOf(r: CacheRollup, entries: map<string, Entry>): map<string, Rollup> {
    map k | k in entries :: RollupOf(r, k, entries[k])
  }

  lemma InsertedIs(c: Cache, o: Obs, now: int, isUnique: bool)
    ensures Inserted(c, o, now, isUnique)
            == Cache(c.entries[o.key := FreshEntry(o.provider, now)], c.memory + Estimate(o.key, {}, isUnique))
  {
  }

  /** Hold by cases; a cleanup is only ever due when it has two entries or more, unless the add panics. */
  lemma HoldIs(limits: Limits, c: Cache, o: Obs, now: int, isUnique: bool)
    requires o.key != ""
    ensures var d := Inserted(c, o, now, isUnique);
            && Hold(limits, c, o, now, isUnique)
               == (if o.key in c.entries then c else if ShouldClean(limits, d) then Cleanup(d, isUnique) else d)
            && (!Panics(limits, c, o, now, isUnique) && o.key !in c.entries && ShouldClean(limits, d) ==> |d.entries| >= 2)
  {
    hide Cleanup, ShouldClean, Estimate;
  }

  lemma EntryAt(cache: map<string, CacheEntry>, key: string)
    requires key in cache
    ensures key in EntriesOf(cache) && EntriesOf(cache)[key] == cache[key].View()
  {
  }

  lemma EmptyCleanup(entries: map<string, Entry>, memory: int, isUnique: bool)
    requires |entries| == 0
    ensures Cleanup(Cache(entries, memory), isUnique) == Cache(entries, memory)
  {
    assert Survivors(entries) == map[] && Estimates(Removed(entries), isUnique) == map[];
  }

  ghost function Doomed(entries: map<string, Entry>): set<string> {
    set k | k in entries && !Survives(entries, k)
  }

  lemma DoomedAreRemoved(entries: map<string, Entry>)
    ensures Part(entries, Doomed(entries)) == Removed(entries)
    ensures entries - Doomed(entries) == Survivors(entries)
  {
  }

  lemma NothingRemoved(entries: map<string, Entry>, isUnique: bool)
    ensures Total(Estimates(Part(entries, {}), isUnique)) == 0
  {
    assert Estimates(Part(entries, {}), isUnique) == map[];
  }

  lemma OneMoreRemoved(entries: map<string, Entry>, removed: set<string>, key: string, isUnique: bool)
    requires key in entries && key !in removed
    ensures Total(Estimates(Part(entries, removed + {key}), isUnique))
            == Total(Estimates(Part(entries, removed), isUnique)) + Estimate(key, entries[key].uniques, isUnique)
  {
    hide Estimate, Total;
    var was, size := Estimates(Part(entries, removed), isUnique), Estimate(key, entries[key].uniques, isUnique);
    TotalWith(was, key, size);
    assert Estimates(Part(entries, removed + {key}), isUnique) == was[key := size];
  }
}
