/** What a rollup reads off one record: its key, its value and its unique values. */
module RollupRows {
  import opened Totals
  import opened RollupKeys
  import opened CacheModel

  /** A record; every one carries a sample rate and a provider. */
  datatype Row = Row(fields: Record, sampleRate: int, provider: string)

  datatype Rules = Rules(
    dims: seq<Dimension>, token: string, keepUndefined: bool,
    metrics: seq<string>, multiMetrics: seq<(string, string)>, sample: bool, names: seq<string>, splitMetrics: bool)

  function MetricOf(row: Row, metric: string): nat {
    if metric in row.fields && row.fields[metric].Int? then U64(row.fields[metric].n) else 0
  }

  function MultiOf(row: Row, metric: (string, string)): nat {
    if metric.0 in row.fields && row.fields[metric.0].IntMap? then U64(IntAt(row.fields[metric.0].ints, metric.1)) else 0
  }

  function MetricsSum(row: Row, metrics: seq<string>): nat {
    if metrics == [] then 0
    else MetricsSum(row, metrics[..|metrics| - 1]) + MetricOf(row, metrics[|metrics| - 1])
  }

  function MultisSum(row: Row, metrics: seq<(string, string)>): nat {
    if metrics == [] then 0
    else MultisSum(row, metrics[..|metrics| - 1]) + MultiOf(row, metrics[|metrics| - 1])
  }

  /** A sampled rollup counts each record as often as its sample rate says. */
  function Scale(rules: Rules, row: Row): nat {
    if rules.sample && U64(row.sampleRate) > 0 then U64(row.sampleRate) else 1
  }

  function ValueOf(rules: Rules, row: Row): nat {
    U64((MetricsSum(row, rules.metrics) + MultisSum(row, rules.multiMetrics)) * Scale(rules, row))
  }

  function UniquesOf(rules: Rules, row: Row): set<string> {
    (set m | m in rules.metrics && m in row.fields && row.fields[m].Str? :: row.fields[m].s)
    + (set m | m in rules.metrics && m in row.fields && row.fields[m].Int? :: Itoa(row.fields[m].n))
    + (set m | m in rules.multiMetrics && m.0 in row.fields && row.fields[m.0].StrMap? :: StrAt(row.fields[m.0].strs, m.1))
    + (set m | m in rules.multiMetrics && m.0 in row.fields && row.fields[m.0].IntMap? :: Itoa(IntAt(row.fields[m.0].ints, m.1)))
  }

  function ObsOf(rules: Rules, row: Row): Obs
    requires ValidDimensions(rules.dims)
  {
    Obs(KeyOf(row.fields, rules.dims, rules.token, rules.keepUndefined), ValueOf(rules, row), row.provider, UniquesOf(rules, row))
  }

  // ---------------------------------------------------------------- what is read off a record, from its columns

  /** The number of a column, in 64 bits; 0 for any other. */
  predicate ReadsColumn(fields: Record, metric: string, n: nat) {
    if metric in fields && fields[metric].Int? then n < 0x1_0000_0000_0000_0000 && (fields[metric].n - n) % 0x1_0000_0000_0000_0000 == 0
    else n == 0
  }

  /** The number of an entry of a column that is a map, in 64 bits; 0 for any other. */
  predicate ReadsEntry(fields: Record, metric: (string, string), n: nat) {
    if metric.0 in fields && fields[metric.0].IntMap? && metric.1 in fields[metric.0].ints then
      n < 0x1_0000_0000_0000_0000 && (fields[metric.0].ints[metric.1] - n) % 0x1_0000_0000_0000_0000 == 0
    else n == 0
  }

  function Sum(ns: seq<nat>): nat {
    if ns == [] then 0 else ns[0] + Sum(ns[1..])
  }

  /** How often a record counts. */
  predicate ReadsScale(rules: Rules, row: Row, scale: nat) {
    var rate := row.sampleRate % 0x1_0000_0000_0000_0000;
    scale == if rules.sample && rate > 0 then rate else 1
  }

  ghost predicate ReadsColumns(rules: Rules, row: Row, ns: seq<nat>) {
    |ns| == |rules.metrics| && forall i :: 0 <= i < |ns| ==> ReadsColumn(row.fields, rules.metrics[i], ns[i])
  }

  ghost predicate ReadsEntries(rules: Rules, row: Row, ms: seq<nat>) {
    |ms| == |rules.multiMetrics| && forall i :: 0 <= i < |ms| ==> ReadsEntry(row.fields, rules.multiMetrics[i], ms[i])
  }

  /** All metrics of a record, as often as it counts, in 64 bits. */
  ghost predicate IsValueOf(rules: Rules, row: Row, value: nat) {
    exists ns, ms, scale: nat :: ReadsColumns(rules, row, ns) && ReadsEntries(rules, row, ms) && ReadsScale(rules, row, scale)
      && value == ((Sum(ns) + Sum(ms)) * scale) % 0x1_0000_0000_0000_0000
  }

  lemma {:induction false} SumLast(ns: seq<nat>, n: nat)
    ensures Sum(ns + [n]) == Sum(ns) + n
  {
    if ns == [] {
      assert ([] + [n])[1..] == [];
    } else {
      assert (ns + [n])[1..] == ns[1..] + [n];
      SumLast(ns[1..], n);
    }
  }

  lemma MetricReads(row: Row, metric: string)
    ensures ReadsColumn(row.fields, metric, MetricOf(row, metric))
  {
  }

  lemma MultiReads(row: Row, metric: (string, string))
    ensures ReadsEntry(row.fields, metric, MultiOf(row, metric))
  {
  }

  lemma {:induction false} MetricsRead(row: Row, metrics: seq<string>) returns (ns: seq<nat>)
    ensures |ns| == |metrics| && forall i :: 0 <= i < |ns| ==> ReadsColumn(row.fields, metrics[i], ns[i])
    ensures MetricsSum(row, metrics) == Sum(ns)
  {
    hide ReadsColumn, MetricOf;
    if metrics == [] {
      ns := [];
    } else {
      var m := |metrics| - 1;
      var before := MetricsRead(row, metrics[..m]);
      MetricReads(row, metrics[m]);
      SumLast(before, MetricOf(row, metrics[m]));
      ns := before + [MetricOf(row, metrics[m])];
    }
  }

  lemma {:induction false} MultisRead(row: Row, metrics: seq<(string, string)>) returns (ns: seq<nat>)
    ensures |ns| == |metrics| && forall i :: 0 <= i < |ns| ==> ReadsEntry(row.fields, metrics[i], ns[i])
    ensures MultisSum(row, metrics) == Sum(ns)
  {
    hide ReadsEntry, MultiOf;
    if metrics == [] {
      ns := [];
    } else {
      var m := |metrics| - 1;
      var before := MultisRead(row, metrics[..m]);
      MultiReads(row, metrics[m]);
      SumLast(before, MultiOf(row, metrics[m]));
      ns := before + [MultiOf(row, metrics[m])];
    }
  }

  lemma ValueIs(rules: Rules, row: Row)
    ensures IsValueOf(rules, row, ValueOf(rules, row))
  {
    hide ReadsColumn, ReadsEntry, MetricsSum, MultisSum, Sum;
    var ns := MetricsRead(row, rules.metrics);
    var ms := MultisRead(row, rules.multiMetrics);
    assert ReadsColumns(rules, row, ns) && ReadsEntries(rules, row, ms) && ReadsScale(rules, row, Scale(rules, row));
  }

  /** A unique value: the text of a metric, or its number in decimal; of an entry the same, and 0 or nothing if it is missing. */
  ghost predicate IsUniqueOf(rules: Rules, row: Row, text: string) {
    || (exists m :: m in rules.metrics && ShowsUnique(row.fields, m, text))
    || exists m :: m in rules.multiMetrics && ShowsUniqueEntry(row.fields, m, text)
  }

  ghost predicate ShowsUnique(fields: Record, m: string, text: string) {
    && m in fields
    && match fields[m]
       case Str(s) => text == s
       case Int(n) => IsDecimal(text, n)
       case _ => false
  }

  ghost predicate ShowsUniqueEntry(fields: Record, m: (string, string), text: string) {
    && m.0 in fields
    && match fields[m.0]
       case StrMap(strs) => IsEntry(strs, m.1, text)
       case IntMap(ints) => IsDecimal(text, if m.1 in ints then ints[m.1] else 0)
       case _ => false
  }

  lemma UniquesOfIff(rules: Rules, row: Row, text: string)
    ensures text in UniquesOf(rules, row) <==> IsUniqueOf(rules, row, text)
  {
    hide IsDecimal, Itoa;
    forall n: int ensures IsDecimal(text, n) <==> text == Itoa(n) {
      ItoaIsDecimal(n);
      if IsDecimal(text, n) {
        OneDecimal(text, Itoa(n), n);
      }
    }
  }

  /** The sum of all metrics of a record, in 64 bits. */
  method SumMetrics(rules: Rules, row: Row) returns (value: nat)
    ensures value == U64(MetricsSum(row, rules.metrics) + MultisSum(row, rules.multiMetrics))
  {
    hide U64, MetricOf, MultiOf;
    value := U64(0);
    for i := 0 to |rules.metrics|
      invariant value == U64(MetricsSum(row, rules.metrics[..i]))
    {
      AddMod(MetricsSum(row, rules.metrics[..i]), MetricOf(row, rules.metrics[i]));
      value := U64(value + MetricOf(row, rules.metrics[i]));
      assert rules.metrics[..i + 1][..i] == rules.metrics[..i];
    }
    assert rules.metrics[..|rules.metrics|] == rules.metrics;
    ghost var total := MetricsSum(row, rules.metrics);
    for i := 0 to |rules.multiMetrics|
      invariant value == U64(total + MultisSum(row, rules.multiMetrics[..i]))
    {
      AddMod(total + MultisSum(row, rules.multiMetrics[..i]), MultiOf(row, rules.multiMetrics[i]));
      value := U64(value + MultiOf(row, rules.multiMetrics[i]));
      assert rules.multiMetrics[..i + 1][..i] == rules.multiMetrics[..i];
    }
    assert rules.multiMetrics[..|rules.multiMetrics|] == rules.multiMetrics;
  }

  method ComputeValue(rules: Rules, row: Row) returns (value: nat)
    ensures value == ValueOf(rules, row) && IsValueOf(rules, row, value)
  {
    ValueIs(rules, row);
    hide IsValueOf, U64, MetricsSum, MultisSum;
    var total := SumMetrics(rules, row);
    ghost var exact := MetricsSum(row, rules.metrics) + MultisSum(row, rules.multiMetrics);
    if rules.sample && U64(row.sampleRate) > 0 {
      MulMod(exact, U64(row.sampleRate));
      value := U64(total * U64(row.sampleRate));
    } else {
      value := total;
      assert exact * 1 == exact;
    }
  }
}
