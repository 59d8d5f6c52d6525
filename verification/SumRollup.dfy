/** The sum rollup in its own form: batches summed record by record, and an event loop that merges them. */
module SumRollups {
  import opened Filters
  import opened Sequences
  import opened Totals
  import opened RollupKeys
  import opened RollupRows
  import opened Ranking
  import opened SumModel

  /** The rollup of each key for one name. */
  ghost function RollupsOf(name: string, i: nat, b: Batch, float64: nat -> real): map<string, Rollup> {
    map k | k in b.sum :: Rollup(name, k, float64(At(b, k, i)), b.count, b.min, b.max, b.provider)
  }

  lemma RollupsKeys(name: string, i: nat, b: Batch, float64: nat -> real)
    ensures RollupsOf(name, i, b, float64).Keys == b.sum.Keys
  {
  }

  /** One export for each name, one after the other; nothing at all when there are no keys. */
  ghost predicate IsParts(parts: seq<seq<Rollup>>, names: seq<string>, b: Batch, topK: int, float64: nat -> real) {
    && |parts| == (if b.sum == map[] then 0 else |names|)
    && forall i :: 0 <= i < |parts| ==> IsExport(parts[i], RollupsOf(names[i], i, b, float64), topK)
  }

  ghost predicate ExportsNames(rollups: seq<Rollup>, names: seq<string>, b: Batch, topK: int, float64: nat -> real) {
    exists parts :: IsParts(parts, names, b, topK, float64) && rollups == Flatten(parts)
  }

  /** The best of one name: for each key kept its i-th sum, and the count, bounds and provider of the interval. */
  ghost predicate ReportsName(part: seq<Rollup>, name: string, i: nat, b: Batch, topK: int, float64: nat -> real) {
    && |part| == (if 0 < topK < |b.sum| then topK else |b.sum|)
    && (forall r :: r in part ==>
          && r.name == name && r.dimension in b.sum && i < |b.sum[r.dimension]|
          && r.metric == float64(b.sum[r.dimension][i])
          && r.count == b.count && r.min == b.min && r.max == b.max && r.provider == b.provider)
    && (forall j, k :: 0 <= j < k < |part| ==> part[j].metric >= part[k].metric && part[j].dimension != part[k].dimension)
    && forall key, r :: r in part && key in b.sum && LeftOut(part, key) ==>
         i < |b.sum[key]| && r.metric >= float64(b.sum[key][i])
  }

  /** One list after the other for each name, none if there are no keys. */
  ghost predicate ReportsAll(rollups: seq<Rollup>, names: seq<string>, b: Batch, topK: int, float64: nat -> real) {
    exists parts :: rollups == Flatten(parts) && ArePartsOf(parts, names, b, topK, float64)
  }

  ghost predicate ArePartsOf(parts: seq<seq<Rollup>>, names: seq<string>, b: Batch, topK: int, float64: nat -> real) {
    && |parts| == (if |b.sum| == 0 then 0 else |names|)
    && forall i :: 0 <= i < |parts| ==> ReportsName(parts[i], names[i], i, b, topK, float64)
  }

  lemma RollupAt(name: string, i: nat, b: Batch, float64: nat -> real, n: nat, key: string)
    requires HasWidth(b, n) && i < n && key in b.sum
    ensures var rollups := RollupsOf(name, i, b, float64);
            && key in rollups && i < |b.sum[key]|
            && rollups[key] == Rollup(name, key, float64(b.sum[key][i]), b.count, b.min, b.max, b.provider)
  {
  }

  lemma PartReports(part: seq<Rollup>, name: string, i: nat, b: Batch, topK: int, float64: nat -> real, n: nat)
    requires HasWidth(b, n) && i < n && IsExport(part, RollupsOf(name, i, b, float64), topK)
    ensures ReportsName(part, name, i, b, topK, float64)
  {
    hide IsExport, RollupsOf, HasWidth, LeftOut;
    var rollups := RollupsOf(name, i, b, float64);
    RollupsKeys(name, i, b, float64);
    assert |rollups| == |rollups.Keys| && |b.sum| == |b.sum.Keys|;
    forall key | key in b.sum {
      RollupAt(name, i, b, float64, n, key);
    }
    ExportKeepsBest(part, rollups, topK);
  }

  lemma ExportReports(rollups: seq<Rollup>, names: seq<string>, b: Batch, topK: int, float64: nat -> real)
    requires HasWidth(b, |names|) && ExportsNames(rollups, names, b, topK, float64)
    ensures ReportsAll(rollups, names, b, topK, float64)
  {
    hide IsExport, ReportsName, RollupsOf, HasWidth;
    var parts :| IsParts(parts, names, b, topK, float64) && rollups == Flatten(parts);
    forall i | 0 <= i < |parts| ensures ReportsName(parts[i], names[i], i, b, topK, float64) {
      PartReports(parts[i], names[i], i, b, topK, float64, |names|);
    }
    assert |b.sum| == 0 <==> b.sum == map[];
    assert ArePartsOf(parts, names, b, topK, float64);
  }

  lemma {:induction false} InSomePart(parts: seq<seq<Rollup>>, r: Rollup) returns (i: nat)
    requires r in Flatten(parts)
    ensures i < |parts| && r in parts[i]
  {
    var n := |parts| - 1;
    if r in parts[n] {
      i := n;
    } else {
      i := InSomePart(parts[..n], r);
    }
  }

  /** A rollup of an export in terms of the records of its interval. */
  ghost predicate ReportsRows(r: Rollup, rules: Rules, rows: seq<Row>, first: bool, float64: nat -> real)
    requires ValidDimensions(rules.dims)
  {
    && r.dimension in KeysOf(rules, rows) && r.count == |rows| % 0x1_0000_0000_0000_0000
    && r.max == Most(rules, rows) && r.min == (if first then Least(rules, rows) else 0)
    && exists i: nat :: i < |rules.names| && r.name == rules.names[i] && IsGain(r, rules, rows, i, float64)
  }

  /** That of the last record of the last batch, if there is one. */
  predicate IsLastProvider(provider: string, interval: seq<seq<Row>>) {
    provider ==
    if interval == [] || interval[|interval| - 1] == [] then ""
    else
      var last := interval[|interval| - 1];
      last[|last| - 1].provider
  }

  ghost predicate IsGain(r: Rollup, rules: Rules, rows: seq<Row>, i: nat, float64: nat -> real)
    requires ValidDimensions(rules.dims)
  {
    r.metric == float64(Gain(rules, rows, r.dimension, i) % 0x1_0000_0000_0000_0000)
  }

  /** Over every run, what is handed out for the j-th interval is what its records add for each name and key, and their number. */
  lemma RunReports(rules: Rules, events: seq<Event>, j: nat, rollups: seq<Rollup>, topK: int, float64: nat -> real, r: Rollup)
    requires ValidDimensions(rules.dims) && j < |Run(rules, events).exports|
    requires ReportsAll(rollups, rules.names, Run(rules, events).exports[j], topK, float64) && r in rollups
    ensures |Run(rules, events).closed| == |Run(rules, events).exports|
    ensures ReportsRows(r, rules, Flatten(Run(rules, events).closed[j]), j == 0, float64)
    ensures IsLastProvider(r.provider, Run(rules, events).closed[j])
  {
    hide Run, Gain, KeysOf, Most, Least, Flatten;
    RunAccounts(rules, events);
    var h := Run(rules, events);
    var rows, b := Flatten(h.closed[j]), h.exports[j];
    var parts :| rollups == Flatten(parts) && ArePartsOf(parts, rules.names, b, topK, float64);
    var i := InSomePart(parts, r);
    assert ReportsName(parts[i], rules.names[i], i, b, topK, float64);
    SumsAre(rules, rows, r.dimension, i);
    assert IsGain(r, rules, rows, i, float64);
  }

  lemma SumsAre(rules: Rules, rows: seq<Row>, key: string, i: nat)
    requires ValidDimensions(rules.dims) && i < |rules.names|
    ensures key in SumsOf(rules, rows) <==> key in KeysOf(rules, rows)
    ensures key in KeysOf(rules, rows) ==>
              i < |SumsOf(rules, rows)[key]| && SumsOf(rules, rows)[key][i] == Gain(rules, rows, key, i) % 0x1_0000_0000_0000_0000
    ensures U64(|rows|) == |rows| % 0x1_0000_0000_0000_0000
  {
    hide KeysOf, Gain;
  }

  class SumRollup {
    const rules: Rules
    const topK: int
    const float64: nat -> real
    const filters: seq<Row -> bool>
    var kvs: seq<Batch>
    var sum: map<string, seq<nat>>
    var count: nat
    var min: nat
    var max: nat
    var provider: string

    ghost predicate Valid()
      reads this
    {
      && ValidDimensions(rules.dims)
      && (forall i :: 0 <= i < |kvs| ==> HasWidth(kvs[i], |rules.names|))
      && HasWidth(View().acc, |rules.names|)
    }

    ghost function View(): Live
      reads this
    {
      Live(kvs, Batch(sum, count, min, max, provider))
    }

    constructor (rules: Rules, topK: int, float64: nat -> real, filters: seq<Row -> bool>)
      requires ValidDimensions(rules.dims)
      ensures Valid() && View() == Live([], Start(true))
      ensures this.rules == rules && this.topK == topK && this.float64 == float64
    {
      this.rules, this.topK, this.float64, this.filters := rules, topK, float64, filters;
      kvs, sum, count, min, max, provider := [], map[], 0, MAX_UINT64, 0, "";
    }

    /** The value of one metric for a record, as often as its sample rate says. */
    method Scaled(row: Row, metric: string) returns (vv: nat)
      ensures vv == U64(MetricOf(row, metric) * Scale(rules, row))
    {
      vv := MetricOf(row, metric);
      if rules.sample && U64(row.sampleRate) > 0 {
        vv := U64(vv * U64(row.sampleRate));
      }
    }

    /** Adds each metric of a record to the sum of its own name; not ok when it indexes past the names, where the program panics. */
    method AddSplit(row: Row, sums: seq<nat>) returns (ok: bool, added: seq<nat>, value: nat)
      requires rules.splitMetrics && |sums| == |rules.names| && Fits(sums)
      ensures ok == HasNames(rules)
      ensures ok ==> added == AddVectors(sums, Amounts(rules, row)) && value == RowValue(rules, row)
    {
      hide MetricOf, Scale, U64;
      ghost var amounts := Amounts(rules, row);
      added, value := sums, 0;
      ZeroMod();
      for i := 0 to |rules.metrics|
        invariant i <= |added| == |sums| && value == U64(AmountsSum(rules, row, i))
        invariant forall j :: 0 <= j < i ==> added[j] == U64(sums[j] + amounts[j])
        invariant forall j :: i <= j < |sums| ==> added[j] == sums[j]
      {
        var vv := Scaled(row, rules.metrics[i]);
        if i >= |added| {
          return false, added, value;
        }
        AddMod(AmountsSum(rules, row, i), vv);
        added := added[i := U64(added[i] + vv)];
        value := U64(value + vv);
      }
      forall j | |rules.metrics| <= j < |sums| ensures added[j] == U64(sums[j] + amounts[j]) {
        FitsMod(sums, j);
      }
      ok := true;
    }

    /** Adds what a record has for each name to the sums of its key. */
    method AddAmounts(row: Row, sums: seq<nat>) returns (ok: bool, added: seq<nat>, value: nat)
      requires |sums| == |rules.names| && Fits(sums)
      ensures ok == HasNames(rules)
      ensures ok ==> added == AddVectors(sums, Amounts(rules, row)) && value == RowValue(rules, row)
      ensures ok ==> forall i :: 0 <= i < |sums| ==> i < |added| && GrowsBy(rules, row, i, sums[i], added[i])
      ensures ok ==> if rules.splitMetrics then IsSplitValueOf(rules, row, value) else IsValueOf(rules, row, value)
    {
      RowValueIs(rules, row);
      hide IsSplitValueOf, IsValueOf;
      GrowAll(rules, row, sums);
      hide U64, ValueOf, GrowsBy, Amount;
      if rules.splitMetrics {
        ok, added, value := AddSplit(row, sums);
      } else {
        value := ComputeValue(rules, row);
        if sums == [] {
          return false, sums, value;
        }
        added := sums[0 := U64(sums[0] + value)];
        AmountsUnsplit(rules, row);
        forall j | 0 < j < |sums| ensures sums[j] == U64(sums[j] + 0) {
          FitsMod(sums, j);
        }
        ok := true;
      }
    }

    method Summed(rows: seq<Row>) returns (ok: bool, b: Batch)
      requires ValidDimensions(rules.dims)
      ensures ok == (rows == [] || HasNames(rules)) && (ok ==> b == BatchOf(rules, rows))
    {
      hide SumsOf, Amounts, AddVectors, Least, Most, KeyOf, RowValue, U64, HasNames, GrowsBy, IsSplitValueOf, IsValueOf;
      var sum: map<string, seq<nat>>, count, min, max, prov := map[], 0, MAX_UINT64, 0, "";
      NoRows(rules);
      for n := 0 to |rows|
        invariant n > 0 ==> HasNames(rules)
        invariant sum == SumsOf(rules, rows[..n]) && count == U64(n)
        invariant min == Least(rules, rows[..n]) && max == Most(rules, rows[..n])
        invariant prov == if n == 0 then "" else rows[n - 1].provider
      {
        var row := rows[n];
        var key := GetKey(row.fields, rules.dims, rules.token, rules.keepUndefined);
        SumsFit(rules, rows[..n], key);
        if key !in sum {
          sum := sum[key := ZeroSums(|rules.names|)];
        }
        var added, value;
        ok, added, value := AddAmounts(row, sum[key]);
        if !ok {
          return false, Batch(sum, count, min, max, prov);
        }
        AmountsAre(rules, row);
        SumsStep(rules, rows[..n], row, Amounts(rules, row));
        BoundsStep(rules, rows[..n], row);
        AddMod(n, 1);
        assert rows[..n + 1] == rows[..n] + [row];
        sum, count, prov := sum[key := added], U64(count + 1), row.provider;
        if min > value {
          min := value;
        }
        if max < value {
          max := value;
        }
      }
      assert rows[..|rows|] == rows;
      ok, b := true, Batch(sum, count, min, max, prov);
    }

    /** Sums up a batch, and sends it off unless the channel is full; panics on any record if there are not enough names. */
    method AddSum(rows: seq<Row>) returns (ok: bool)
      requires Valid()
      modifies this`kvs
      ensures ok == (rows == [] || HasNames(rules))
      ensures Valid() && View() == if ok then Offer(old(View()), BatchOf(rules, rows)) else old(View())
      ensures |kvs| == |old(kvs)| + if ok && |old(kvs)| < 10_000 then 1 else 0
    {
      hide BatchOf;
      var b;
      ok, b := Summed(rows);
      SumsWidth(rules, rows);
      if ok && |kvs| < CHAN_SLACK {
        kvs := kvs + [b];
      }
    }

    /** Adds the records that pass the filters. */
    method Add(batch: seq<Row>) returns (ok: bool)
      requires Valid()
      modifies this`kvs
      ensures ok == (Passing(batch, filters) == [] || HasNames(rules))
      ensures Valid() && View() == if ok then Offer(old(View()), BatchOf(rules, Passing(batch, filters))) else old(View())
    {
      hide BatchOf, Passing;
      NoFilters(batch);
      var rows := batch;
      if filters != [] {
        rows := Reduce(batch, filters);
      }
      ok := AddSum(rows);
    }

    /** Takes the next batch off the channel and adds it to what is held. */
    method Deliver()
      requires Valid()
      modifies this
      ensures Valid() && View() == Take(old(View()))
    {
      if kvs == [] {
        return;
      }
      var itm := kvs[0];
      kvs := kvs[1..];
      sum := MergeInto(sum, itm.sum);
      count := U64(count + itm.count);
      if min > itm.min {
        min := itm.min;
      }
      if max < itm.max {
        max := itm.max;
      }
      provider := itm.provider;
    }

    method MergeInto(held: map<string, seq<nat>>, more: map<string, seq<nat>>) returns (merged: map<string, seq<nat>>)
      requires forall k :: k in held ==> |held[k]| == |rules.names|
      requires forall k :: k in more ==> |more[k]| == |rules.names|
      ensures merged == MergeSums(held, more) && forall k :: k in merged ==> |merged[k]| == |rules.names|
    {
      hide AddVectors, MergeSums;
      merged := held;
      var todo := more.Keys;
      MergeNone(held, more);
      while todo != {}
        invariant todo <= more.Keys && merged == MergeSums(held, more - todo)
      {
        var k :| k in todo;
        MergeOne(held, more, todo, k);
        var was := if k in merged then merged[k] else ZeroSums(|more[k]|);
        var added := AddTo(was, more[k]);
        merged := merged[k := added];
        todo := todo - {k};
      }
      assert more - todo == more;
      forall k | k in merged ensures |merged[k]| == |rules.names| {
        MergeWidth(held, more, k, |rules.names|);
      }
    }

    method AddTo(v: seq<nat>, w: seq<nat>) returns (added: seq<nat>)
      requires |v| == |w|
      ensures added == AddVectors(v, w)
    {
      added := v;
      for i := 0 to |w|
        invariant |added| == |v|
        invariant forall j :: 0 <= j < i ==> added[j] == U64(v[j] + w[j])
        invariant forall j :: i <= j < |v| ==> added[j] == v[j]
      {
        added := added[i := U64(added[i] + w[i])];
      }
    }

    /** Hands what is held to an export, and starts over, with 0 for the smallest value. */
    method Export() returns (rollups: seq<Rollup>)
      requires Valid()
      modifies this
      ensures Valid() && View() == Cut(old(View()))
      ensures ExportsNames(rollups, rules.names, old(View().acc), topK, float64)
      ensures ReportsAll(rollups, rules.names, old(View().acc), topK, float64)
    {
      hide ExportsNames, ReportsAll;
      var b := Batch(sum, count, min, max, provider);
      sum, count, min, max, provider := map[], 0, 0, 0, "";
      rollups := ExportSum(b);
      ExportReports(rollups, rules.names, b, topK, float64);
    }

    method ExportSum(b: Batch) returns (rollups: seq<Rollup>)
      requires HasWidth(b, |rules.names|)
      ensures ExportsNames(rollups, rules.names, b, topK, float64)
    {
      hide IsTop, ListsRollups, IsExport, RollupsOf;
      rollups := [];
      ghost var parts: seq<seq<Rollup>> := [];
      if |b.sum| == 0 {
        assert IsParts(parts, rules.names, b, topK, float64) && rollups == Flatten(parts);
        return;
      }
      for i := 0 to |rules.names|
        invariant |parts| == i && rollups == Flatten(parts)
        invariant forall j :: 0 <= j < i ==> IsExport(parts[j], RollupsOf(rules.names[j], j, b, float64), topK)
      {
        var all := RollupsOfName(b, rules.names[i], i);
        var part := TopK(all, topK);
        FlattenStep(parts, part);
        RollupsKeys(rules.names[i], i, b, float64);
        ExportOf(all, part, RollupsOf(rules.names[i], i, b, float64), topK);
        rollups, parts := rollups + part, parts + [part];
      }
      assert IsParts(parts, rules.names, b, topK, float64);
    }

    method RollupsOfName(b: Batch, name: string, i: nat) returns (all: seq<Rollup>)
      requires HasWidth(b, |rules.names|) && i < |rules.names|
      ensures ListsRollups(all, RollupsOf(name, i, b, float64), b.sum.Keys)
    {
      hide ListsRollups;
      all := [];
      var todo := b.sum.Keys;
      ghost var done: set<string>, rollups := {}, RollupsOf(name, i, b, float64);
      ListsNoRollups(rollups);
      while todo != {}
        invariant done !! todo && done + todo == b.sum.Keys && ListsRollups(all, rollups, done)
      {
        var k :| k in todo;
        ListsOneMore(all, rollups, done, k);
        all := all + [Rollup(name, k, float64(b.sum[k][i]), b.count, b.min, b.max, b.provider)];
        todo, done := todo - {k}, done + {k};
      }
      assert done == b.sum.Keys;
    }
  }

  /** Two metrics split over one name: the first record panics. */
  method SplitOverOneName(row: Row) returns (ok: bool)
    ensures !ok
  {
    var r := new SumRollup(Rules([], "^", false, ["a", "b"], [], false, ["a"], true), 0, n => n as real, []);
    ok := r.AddSum([row]);
  }

  /** A sum with what a record adds to it, in 64 bits. */
  ghost predicate GrowsBy(rules: Rules, row: Row, i: nat, was: nat, now: nat) {
    exists n: nat :: IsAmountOf(rules, row, i, n) && now == (was + n) % 0x1_0000_0000_0000_0000
  }

  lemma GrowAll(rules: Rules, row: Row, sums: seq<nat>)
    requires |sums| == |rules.names|
    ensures forall i :: 0 <= i < |sums| ==> GrowsBy(rules, row, i, sums[i], AddVectors(sums, Amounts(rules, row))[i])
  {
    forall i | 0 <= i < |sums| ensures GrowsBy(rules, row, i, sums[i], AddVectors(sums, Amounts(rules, row))[i]) {
      AmountIs(rules, row, i);
      hide IsAmountOf, Amount;
    }
  }

  lemma AmountsUnsplit(rules: Rules, row: Row)
    requires !rules.splitMetrics
    ensures forall i: nat :: Amount(rules, row, i) == if i == 0 then ValueOf(rules, row) else 0
  {
    hide ValueOf;
  }

  function Amounts(rules: Rules, row: Row): seq<nat> {
    seq(|rules.names|, (i: nat) => Amount(rules, row, i))
  }

  lemma AmountsAre(rules: Rules, row: Row)
    ensures AreAmounts(Amounts(rules, row), rules, row)
  {
  }

  predicate Fits(v: seq<nat>) {
    forall i :: 0 <= i < |v| ==> v[i] <= MAX_UINT64
  }

  lemma FitsMod(v: seq<nat>, j: nat)
    requires Fits(v) && j < |v|
    ensures U64(v[j] + 0) == v[j]
  {
  }

  lemma NoRows(rules: Rules)
    requires ValidDimensions(rules.dims)
    ensures SumsOf(rules, []) == map[] && U64(0) == 0 && Least(rules, []) == MAX_UINT64 && Most(rules, []) == 0
  {
  }

  lemma SumsFit(rules: Rules, rows: seq<Row>, key: string)
    requires ValidDimensions(rules.dims)
    ensures var sums := SumsOf(rules, rows);
            var v := if key in sums then sums[key] else ZeroSums(|rules.names|);
            |v| == |rules.names| && Fits(v)
  {
    hide Gain, KeysOf;
  }

  lemma SumsWidth(rules: Rules, rows: seq<Row>)
    requires ValidDimensions(rules.dims)
    ensures HasWidth(BatchOf(rules, rows), |rules.names|)
  {
    hide KeysOf, Gain;
  }

  lemma BoundsStep(rules: Rules, rows: seq<Row>, row: Row)
    ensures var least, most, value := Least(rules, rows), Most(rules, rows), RowValue(rules, row);
            && Least(rules, rows + [row]) == (if least > value then value else least)
            && Most(rules, rows + [row]) == (if most < value then value else most)
  {
    var all := rows + [row];
    assert all[..|all| - 1] == rows && all[|all| - 1] == row;
  }

  lemma MergeNone(held: map<string, seq<nat>>, more: map<string, seq<nat>>)
    ensures MergeSums(held, more - more.Keys) == held
  {
  }

  lemma MergeOne(held: map<string, seq<nat>>, more: map<string, seq<nat>>, todo: set<string>, k: string)
    requires k in todo && k in more
    ensures var was := MergeSums(held, more - todo);
            && (k in was <==> k in held) && (k in was ==> was[k] == held[k])
            && MergeSums(held, more - (todo - {k}))
               == was[k := AddVectors(if k in was then was[k] else ZeroSums(|more[k]|), more[k])]
  {
    hide AddVectors, ZeroSums;
  }

  lemma MergeWidth(a: map<string, seq<nat>>, b: map<string, seq<nat>>, key: string, n: nat)
    requires key in a ==> |a[key]| == n
    requires key in b ==> |b[key]| == n
    ensures key in MergeSums(a, b) ==> |MergeSums(a, b)[key]| == n
  {
  }
}
