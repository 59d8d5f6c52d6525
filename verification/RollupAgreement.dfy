/** The cache rollup and the sum rollup add up the same records to the same sums. */
module RollupAgreement {
  import opened Sequences
  import opened Totals
  import opened RollupKeys
  import opened RollupRows
  import opened CacheModel
  import opened RollupSums
  import opened SumModel

  function SumUp(v: seq<nat>): nat {
    if v == [] then 0 else SumUp(v[..|v| - 1]) + v[|v| - 1]
  }

  /** The records behind some observations, whatever the times of their batches. */
  ghost predicate Observed(rules: Rules, rows: seq<Row>, os: seq<Timed>)
    requires ValidDimensions(rules.dims)
  {
    |rows| == |os| && forall i :: 0 <= i < |rows| ==> os[i].obs == ObsOf(rules, rows[i])
  }

  /** All names of a key together. */
  function GainsTotal(rules: Rules, rows: seq<Row>, key: string, n: nat): nat
    requires ValidDimensions(rules.dims)
  {
    if n == 0 then 0 else GainsTotal(rules, rows, key, n - 1) + Gain(rules, rows, key, n - 1)
  }

  /** The sum rollup has a name for what it adds, and splits no metric of two levels. */
  predicate NamesCover(rules: Rules) {
    HasNames(rules) && (rules.splitMetrics ==> rules.multiMetrics == [])
  }

  lemma {:induction false} NoMoreAmounts(rules: Rules, row: Row, n: nat)
    ensures rules.splitMetrics && |rules.metrics| <= n ==> AmountsSum(rules, row, n) == AmountsSum(rules, row, |rules.metrics|)
    ensures !rules.splitMetrics ==> AmountsSum(rules, row, n) == if n == 0 then 0 else ValueOf(rules, row)
  {
    hide U64, MetricOf, Scale, ValueOf;
    if n > 0 {
      NoMoreAmounts(rules, row, n - 1);
    }
  }

  /** Over all names a record adds its value. */
  lemma AmountsAreValue(rules: Rules, row: Row)
    requires NamesCover(rules)
    ensures U64(AmountsSum(rules, row, |rules.names|)) == ValueOf(rules, row) == RowValue(rules, row)
  {
    hide MetricOf, Scale, MetricsSum;
    NoMoreAmounts(rules, row, |rules.names|);
    if rules.splitMetrics {
      SplitAmounts(rules, row, |rules.metrics|);
      assert rules.metrics[..|rules.metrics|] == rules.metrics;
    } else {
      ModMod((MetricsSum(row, rules.metrics) + MultisSum(row, rules.multiMetrics)) * Scale(rules, row));
    }
  }

  lemma {:induction false} GainsTotalStep(rules: Rules, rows: seq<Row>, row: Row, key: string, n: nat)
    requires ValidDimensions(rules.dims)
    ensures GainsTotal(rules, rows + [row], key, n)
            == GainsTotal(rules, rows, key, n) + if KeyFor(rules, row) == key then AmountsSum(rules, row, n) else 0
  {
    hide KeyFor, Gain, Amount;
    if n > 0 {
      GainsTotalStep(rules, rows, row, key, n - 1);
      GainStep(rules, rows, row, key, n - 1);
    }
  }

  lemma {:induction false} NoGainsTotal(rules: Rules, key: string, n: nat)
    requires ValidDimensions(rules.dims)
    ensures GainsTotal(rules, [], key, n) == 0
  {
    if n > 0 {
      NoGainsTotal(rules, key, n - 1);
    }
  }

  lemma {:induction false} TotalsAgree(rules: Rules, rows: seq<Row>, os: seq<Timed>, key: string)
    requires ValidDimensions(rules.dims) && NamesCover(rules) && Observed(rules, rows, os)
    ensures U64(GainsTotal(rules, rows, key, |rules.names|)) == U64(StatsOf(Untimed(os), key).sum)
    ensures key in KeysOf(rules, rows) <==> StatsOf(Untimed(os), key).count > 0
  {
    hide ValueOf, UniquesOf, KeyOf, U64, Gain, AmountsSum, NamesCover;
    var n := |rules.names|;
    if rows == [] {
      NoGainsTotal(rules, key, n);
    } else {
      var m := |rows| - 1;
      var before, row := rows[..m], rows[m];
      assert rows == before + [row] && Untimed(os)[..m] == Untimed(os[..m]) && Untimed(os)[m] == os[m].obs;
      TotalsAgree(rules, before, os[..m], key);
      GainsTotalStep(rules, before, row, key, n);
      KeysStep(rules, before, row);
      var was, value := StatsOf(Untimed(os[..m]), key), ValueOf(rules, row);
      assert os[m].obs.value == value && os[m].obs.key == KeyFor(rules, row);
      if KeyFor(rules, row) == key {
        AmountsAreValue(rules, row);
        ModMod(AmountsSum(rules, row, n));
        SumMod(GainsTotal(rules, before, key, n), AmountsSum(rules, row, n), was.sum, value);
      }
    }
  }

  lemma {:induction false} SumUpGains(rules: Rules, rows: seq<Row>, key: string, n: nat)
    requires ValidDimensions(rules.dims) && n <= |rules.names|
    ensures U64(SumUp(Gains(rules, rows, key)[..n])) == U64(GainsTotal(rules, rows, key, n))
  {
    hide Gain, U64;
    if n > 0 {
      SumUpGains(rules, rows, key, n - 1);
      var v := Gains(rules, rows, key);
      assert v[..n][..n - 1] == v[..n - 1];
      ModMod(Gain(rules, rows, key, n - 1));
      SumMod(SumUp(v[..n - 1]), v[n - 1], GainsTotal(rules, rows, key, n - 1), Gain(rules, rows, key, n - 1));
    }
  }

  /**
   * Fed with the same records since the last export, without emergency cleanup, the two rollups know the
   * same keys, but for the empty one the cache skips; and the cache's sum of a key is the sum rollup's
   * sums of it, over all names, modulo 2^64.
   */
  lemma RollupsAgree(rules: Rules, limits: Limits, interval: seq<seq<Row>>, first: bool, os: seq<Timed>, key: string)
    requires ValidDimensions(rules.dims) && NamesCover(rules) && !limits.emergencyCleanup && key != ""
    requires Observed(rules, Flatten(interval), os)
    ensures var entries := AddAll(limits, Cache(map[], 0), os, false).entries;
            var sums := Reported(rules, interval, first).sum;
            && (key in entries <==> key in sums)
            && (key in entries ==> entries[key].sum == U64(SumUp(sums[key])))
  {
    hide AddAll, StatsOf, Gains, U64, NamesCover, KeysOf;
    var rows := Flatten(interval);
    CacheTracks(limits, os, key);
    TotalsAgree(rules, rows, os, key);
    var v := Gains(rules, rows, key);
    GainsWidth(rules, rows, key);
    SumUpGains(rules, rows, key, |v|);
    assert v[..|v|] == v;
  }
}
