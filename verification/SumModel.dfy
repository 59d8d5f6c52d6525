/**
 * The sum rollup as values: the sums of one batch of records, batches merged one by one
 * between two exports, and every run of batches and exports.
 */
module SumModel {
  import opened Sequences
  import opened Totals
  import opened RollupKeys
  import opened RollupRows

  /** Per key one sum for each name; count, smallest and largest value are those of the whole batch. */
  datatype Batch = Batch(sum: map<string, seq<nat>>, count: nat, min: nat, max: nat, provider: string)

  /** The i-th sum of a key, and 0 where there is none. */
  function At(b: Batch, key: string, i: nat): nat {
    if key in b.sum && i < |b.sum[key]| then b.sum[key][i] else 0
  }

  predicate HasWidth(b: Batch, n: nat) {
    forall key :: key in b.sum ==> |b.sum[key]| == n
  }

  function ZeroSums(n: nat): seq<nat> {
    seq(n, i => 0)
  }

  function AddVectors(v: seq<nat>, w: seq<nat>): seq<nat> {
    seq(|w|, i requires 0 <= i < |w| => U64((if i < |v| then v[i] else 0) + w[i]))
  }

  // ---------------------------------------------------------------- one batch

  /** There is a sum for every metric that is split off, or for the one value of a record. */
  predicate HasNames(rules: Rules) {
    if rules.splitMetrics then |rules.metrics| <= |rules.names| else rules.names != []
  }

  /** What a record adds to the i-th sum of its key. */
  function Amount(rules: Rules, row: Row, i: nat): nat {
    if rules.splitMetrics then
      if i < |rules.metrics| then U64(MetricOf(row, rules.metrics[i]) * Scale(rules, row)) else 0
    else
      if i == 0 then ValueOf(rules, row) else 0
  }

  function AmountsSum(rules: Rules, row: Row, n: nat): nat {
    if n == 0 then 0 else AmountsSum(rules, row, n - 1) + Amount(rules, row, n - 1)
  }

  /** The value of a record for the smallest and the largest: all it adds, in 64 bits. */
  function RowValue(rules: Rules, row: Row): nat {
    if rules.splitMetrics then U64(AmountsSum(rules, row, |rules.metrics|)) else ValueOf(rules, row)
  }

  /** What a record adds for one name: its value to the first; or each metric, as often as it counts, to its own. */
  ghost predicate IsAmountOf(rules: Rules, row: Row, i: nat, n: nat) {
    if rules.splitMetrics then
      if i < |rules.metrics| then
        exists m: nat, scale: nat :: ReadsColumn(row.fields, rules.metrics[i], m) && ReadsScale(rules, row, scale)
          && n == (m * scale) % 0x1_0000_0000_0000_0000
      else n == 0
    else if i == 0 then IsValueOf(rules, row, n)
    else n == 0
  }

  lemma AmountIs(rules: Rules, row: Row, i: nat)
    ensures IsAmountOf(rules, row, i, Amount(rules, row, i))
  {
    hide ReadsColumn, IsValueOf, MetricOf, ValueOf;
    ValueIs(rules, row);
    if rules.splitMetrics && i < |rules.metrics| {
      MetricReads(row, rules.metrics[i]);
      assert ReadsScale(rules, row, Scale(rules, row));
    }
  }

  function KeyFor(rules: Rules, row: Row): string
    requires ValidDimensions(rules.dims)
  {
    KeyOf(row.fields, rules.dims, rules.token, rules.keepUndefined)
  }

  /** All that some records add to the i-th sum of a key. */
  function Gain(rules: Rules, rows: seq<Row>, key: string, i: nat): nat
    requires ValidDimensions(rules.dims)
  {
    if rows == [] then 0
    else
      var last := rows[|rows| - 1];
      Gain(rules, rows[..|rows| - 1], key, i) + if KeyFor(rules, last) == key then Amount(rules, last, i) else 0
  }

  function KeysOf(rules: Rules, rows: seq<Row>): set<string>
    requires ValidDimensions(rules.dims)
  {
    set row | row in rows :: KeyFor(rules, row)
  }

  function Gains(rules: Rules, rows: seq<Row>, key: string): seq<nat>
    requires ValidDimensions(rules.dims)
  {
    seq(|rules.names|, (i: nat) => U64(Gain(rules, rows, key, i)))
  }

  function SumsOf(rules: Rules, rows: seq<Row>): map<string, seq<nat>>
    requires ValidDimensions(rules.dims)
  {
    map key | key in KeysOf(rules, rows) :: Gains(rules, rows, key)
  }

  function Least(rules: Rules, rows: seq<Row>): nat {
    if rows == [] then MAX_UINT64
    else
      var before, value := Least(rules, rows[..|rows| - 1]), RowValue(rules, rows[|rows| - 1]);
      if before > value then value else before
  }

  function Most(rules: Rules, rows: seq<Row>): nat {
    if rows == [] then 0
    else
      var before, value := Most(rules, rows[..|rows| - 1]), RowValue(rules, rows[|rows| - 1]);
      if before < value then value else before
  }

  function BatchOf(rules: Rules, rows: seq<Row>): Batch
    requires ValidDimensions(rules.dims)
  {
    Batch(SumsOf(rules, rows), U64(|rows|), Least(rules, rows), Most(rules, rows),
          if rows == [] then "" else rows[|rows| - 1].provider)
  }

  lemma GainStep(rules: Rules, rows: seq<Row>, row: Row, key: string, i: nat)
    requires ValidDimensions(rules.dims)
    ensures Gain(rules, rows + [row], key, i)
            == Gain(rules, rows, key, i) + if KeyFor(rules, row) == key then Amount(rules, row, i) else 0
  {
    var all := rows + [row];
    assert all[..|all| - 1] == rows && all[|all| - 1] == row;
  }

  predicate AreAmounts(amounts: seq<nat>, rules: Rules, row: Row) {
    |amounts| == |rules.names| && forall i :: 0 <= i < |amounts| ==> amounts[i] == Amount(rules, row, i)
  }

  lemma GainsStep(rules: Rules, rows: seq<Row>, row: Row, key: string, amounts: seq<nat>)
    requires ValidDimensions(rules.dims) && AreAmounts(amounts, rules, row)
    ensures Gains(rules, rows + [row], key)
            == if KeyFor(rules, row) == key then AddVectors(Gains(rules, rows, key), amounts) else Gains(rules, rows, key)
  {
    hide KeyFor, Amount, U64, Gain;
    forall i: nat | i < |rules.names|
      ensures U64(Gain(rules, rows + [row], key, i))
              == if KeyFor(rules, row) == key then U64(U64(Gain(rules, rows, key, i)) + amounts[i]) else U64(Gain(rules, rows, key, i))
    {
      GainStep(rules, rows, row, key, i);
      AddMod(Gain(rules, rows, key, i), amounts[i]);
    }
  }

  /** One more record changes the sums of its own key only. */
  lemma SumsStep(rules: Rules, rows: seq<Row>, row: Row, amounts: seq<nat>)
    requires ValidDimensions(rules.dims) && AreAmounts(amounts, rules, row)
    ensures var sums, key := SumsOf(rules, rows), KeyFor(rules, row);
            var v := if key in sums then sums[key] else ZeroSums(|rules.names|);
            |v| == |amounts| && SumsOf(rules, rows + [row]) == sums[key := AddVectors(v, amounts)]
  {
    hide KeyFor, Gains, AddVectors;
    var sums, key, all := SumsOf(rules, rows), KeyFor(rules, row), rows + [row];
    KeysStep(rules, rows, row);
    NoGains(rules, rows, key);
    GainsWidth(rules, rows, key);
    forall k | k in KeysOf(rules, all)
      ensures Gains(rules, all, k) == if k == key then AddVectors(Gains(rules, rows, key), amounts) else Gains(rules, rows, k)
    {
      GainsStep(rules, rows, row, k, amounts);
    }
  }

  lemma KeysStep(rules: Rules, rows: seq<Row>, row: Row)
    requires ValidDimensions(rules.dims)
    ensures KeysOf(rules, rows + [row]) == KeysOf(rules, rows) + {KeyFor(rules, row)}
  {
    hide KeyFor;
  }

  lemma GainsWidth(rules: Rules, rows: seq<Row>, key: string)
    requires ValidDimensions(rules.dims)
    ensures |Gains(rules, rows, key)| == |rules.names|
  {
  }

  lemma NoGains(rules: Rules, rows: seq<Row>, key: string)
    requires ValidDimensions(rules.dims)
    ensures key !in KeysOf(rules, rows) ==> Gains(rules, rows, key) == ZeroSums(|rules.names|)
  {
    hide KeyFor, KeysOf, Gain;
    forall i: nat { NoGain(rules, rows, key, i); }
    ZeroMod();
  }

  lemma ZeroMod()
    ensures U64(0) == 0
  {
  }

  lemma {:induction false} NoGain(rules: Rules, rows: seq<Row>, key: string, i: nat)
    requires ValidDimensions(rules.dims)
    ensures key !in KeysOf(rules, rows) ==> Gain(rules, rows, key, i) == 0
  {
    hide KeyFor;
    if rows != [] && key !in KeysOf(rules, rows) {
      var before, last := rows[..|rows| - 1], rows[|rows| - 1];
      assert KeyFor(rules, last) in KeysOf(rules, rows);
      assert KeysOf(rules, before) <= KeysOf(rules, rows);
      NoGain(rules, before, key, i);
    }
  }

  // ---------------------------------------------------------------- batches put together

  lemma {:induction false} GainConcat(rules: Rules, a: seq<Row>, b: seq<Row>, key: string, i: nat)
    requires ValidDimensions(rules.dims)
    ensures Gain(rules, a + b, key, i) == Gain(rules, a, key, i) + Gain(rules, b, key, i)
    decreases |b|
  {
    hide KeyFor, Amount;
    if b == [] {
      assert a + b == a;
    } else {
      var c, row := b[..|b| - 1], b[|b| - 1];
      GainConcat(rules, a, c, key, i);
      GainStep(rules, a + c, row, key, i);
      assert a + c + [row] == a + b;
    }
  }

  lemma {:induction false} BoundsConcat(rules: Rules, a: seq<Row>, b: seq<Row>)
    ensures Least(rules, a + b) == if Least(rules, a) > Least(rules, b) then Least(rules, b) else Least(rules, a)
    ensures Most(rules, a + b) == if Most(rules, a) < Most(rules, b) then Most(rules, b) else Most(rules, a)
    decreases |b|
  {
    hide RowValue;
    LeastAtMost(rules, a);
    if b == [] {
      assert a + b == a;
    } else {
      var c, row := b[..|b| - 1], b[|b| - 1];
      BoundsConcat(rules, a, c);
      assert (a + b)[..|a + b| - 1] == a + c && (a + b)[|a + b| - 1] == row;
    }
  }

  lemma {:induction false} LeastAtMost(rules: Rules, rows: seq<Row>)
    ensures Least(rules, rows) <= MAX_UINT64
  {
    if rows != [] {
      LeastAtMost(rules, rows[..|rows| - 1]);
    }
  }

  /** Least and Most are what they are called: bounds that some record reaches. */
  lemma {:induction false} BoundsAreReached(rules: Rules, rows: seq<Row>)
    requires rows != []
    ensures forall row :: row in rows ==> Least(rules, rows) <= RowValue(rules, row) <= Most(rules, rows)
    ensures exists row :: row in rows && RowValue(rules, row) == Most(rules, rows)
    ensures exists row :: row in rows && RowValue(rules, row) == Least(rules, rows)
  {
    hide RowValue;
    var before, last := rows[..|rows| - 1], rows[|rows| - 1];
    assert rows == before + [last];
    assert RowValue(rules, last) <= MAX_UINT64 by { ValueFits(rules, last); }
    if before != [] {
      BoundsAreReached(rules, before);
    }
  }

  lemma ValueFits(rules: Rules, row: Row)
    ensures RowValue(rules, row) <= MAX_UINT64
  {
  }

  lemma GainsConcat(rules: Rules, a: seq<Row>, b: seq<Row>, key: string)
    requires ValidDimensions(rules.dims)
    ensures AddVectors(Gains(rules, a, key), Gains(rules, b, key)) == Gains(rules, a + b, key)
  {
    hide Gain, U64;
    forall i: nat | i < |rules.names|
      ensures U64(U64(Gain(rules, a, key, i)) + U64(Gain(rules, b, key, i))) == U64(Gain(rules, a + b, key, i))
    {
      GainConcat(rules, a, b, key, i);
      AddMod(Gain(rules, a, key, i), U64(Gain(rules, b, key, i)));
      AddMod(Gain(rules, a, key, i), Gain(rules, b, key, i));
    }
  }

  function MergeSums(a: map<string, seq<nat>>, b: map<string, seq<nat>>): map<string, seq<nat>> {
    map k | k in a.Keys + b.Keys ::
      if k in b then AddVectors(if k in a then a[k] else ZeroSums(|b[k]|), b[k]) else a[k]
  }

  /** What the loop does with a batch it takes. */
  function Merge(acc: Batch, b: Batch): Batch {
    Batch(MergeSums(acc.sum, b.sum), U64(acc.count + b.count), if acc.min > b.min then b.min else acc.min,
          if acc.max < b.max then b.max else acc.max, b.provider)
  }

  lemma SumsConcat(rules: Rules, a: seq<Row>, b: seq<Row>)
    requires ValidDimensions(rules.dims)
    ensures MergeSums(SumsOf(rules, a), SumsOf(rules, b)) == SumsOf(rules, a + b)
  {
    hide KeyFor, Gains, AddVectors;
    assert KeysOf(rules, a + b) == KeysOf(rules, a) + KeysOf(rules, b);
    forall k | k in KeysOf(rules, a + b)
      ensures MergeSums(SumsOf(rules, a), SumsOf(rules, b))[k] == Gains(rules, a + b, k)
    {
      GainsConcat(rules, a, b, k);
      NoGains(rules, a, k);
      NoGains(rules, b, k);
      GainsWidth(rules, a, k);
      GainsWidth(rules, b, k);
      if k !in KeysOf(rules, b) {
        AddZeroSums(rules, a, k);
      }
    }
  }

  lemma AddZeroSums(rules: Rules, rows: seq<Row>, key: string)
    requires ValidDimensions(rules.dims)
    ensures AddVectors(Gains(rules, rows, key), ZeroSums(|rules.names|)) == Gains(rules, rows, key)
  {
    hide Gain;
  }

  /** What an interval between two exports reports: as if its records had come in one batch, but for `min`. */
  function Reported(rules: Rules, interval: seq<seq<Row>>, first: bool): Batch
    requires ValidDimensions(rules.dims)
  {
    var all := BatchOf(rules, Flatten(interval));
    all.(min := if first then all.min else 0,
         provider := if interval == [] then "" else BatchOf(rules, interval[|interval| - 1]).provider)
  }

  /** What the loop holds at first, and after an export. */
  function Start(first: bool): Batch {
    Batch(map[], 0, if first then MAX_UINT64 else 0, 0, "")
  }

  lemma ReportedNothing(rules: Rules, first: bool)
    requires ValidDimensions(rules.dims)
    ensures Reported(rules, [], first) == Start(first)
  {
    ZeroMod();
  }

  lemma ReportedStep(rules: Rules, interval: seq<seq<Row>>, rows: seq<Row>, first: bool)
    requires ValidDimensions(rules.dims)
    ensures Merge(Reported(rules, interval, first), BatchOf(rules, rows)) == Reported(rules, interval + [rows], first)
  {
    hide SumsOf, Least, Most, MergeSums, U64;
    var before := Flatten(interval);
    FlattenStep(interval, rows);
    SumsConcat(rules, before, rows);
    BoundsConcat(rules, before, rows);
    AddMod(|before|, U64(|rows|));
    AddMod(|before|, |rows|);
  }

  // ---------------------------------------------------------------- runs

  /** kvs holds at most CHAN_SLACK batches; a batch that finds it full is dropped. */
  const CHAN_SLACK := 10000

  datatype Live = Live(kvs: seq<Batch>, acc: Batch)

  function Offer(live: Live, b: Batch): Live {
    if |live.kvs| < CHAN_SLACK then live.(kvs := live.kvs + [b]) else live
  }

  function Take(live: Live): Live {
    if live.kvs == [] then live else Live(live.kvs[1..], Merge(live.acc, live.kvs[0]))
  }

  function Cut(live: Live): Live {
    live.(acc := Start(false))
  }

  datatype Event = Add(rows: seq<Row>) | Deliver | Export

  /**
   * A run: the live state, the batches of records accepted, those still waiting, those of each closed
   * interval and of the open one, and what was exported.
   */
  datatype History = History(live: Live, accepted: seq<seq<Row>>, waiting: seq<seq<Row>>,
                             closed: seq<seq<seq<Row>>>, open: seq<seq<Row>>, exports: seq<Batch>)

  const NO_HISTORY := History(Live([], Start(true)), [], [], [], [], [])

  function Step(rules: Rules, h: History, e: Event): History
    requires ValidDimensions(rules.dims)
  {
    match e
    case Add(rows) =>
      var live := Offer(h.live, BatchOf(rules, rows));
      if |h.live.kvs| < CHAN_SLACK then h.(live := live, accepted := h.accepted + [rows], waiting := h.waiting + [rows])
      else h.(live := live)
    case Deliver =>
      if h.waiting == [] then h.(live := Take(h.live))
      else h.(live := Take(h.live), waiting := h.waiting[1..], open := h.open + [h.waiting[0]])
    case Export =>
      h.(live := Cut(h.live), closed := h.closed + [h.open], open := [], exports := h.exports + [h.live.acc])
  }

  function Run(rules: Rules, events: seq<Event>): History
    requires ValidDimensions(rules.dims)
  {
    if events == [] then NO_HISTORY
    else Step(rules, Run(rules, events[..|events| - 1]), events[|events| - 1])
  }

  ghost predicate Accounts(rules: Rules, h: History)
    requires ValidDimensions(rules.dims)
  {
    && |h.live.kvs| == |h.waiting| <= CHAN_SLACK
    && (forall i :: 0 <= i < |h.waiting| ==> h.live.kvs[i] == BatchOf(rules, h.waiting[i]))
    && Flatten(h.closed) + h.open + h.waiting == h.accepted
    && |h.exports| == |h.closed|
    && (forall j :: 0 <= j < |h.closed| ==> h.exports[j] == Reported(rules, h.closed[j], j == 0))
    && h.live.acc == Reported(rules, h.open, h.closed == [])
  }

  lemma DeliverAccounts(rules: Rules, h: History)
    requires ValidDimensions(rules.dims) && Accounts(rules, h)
    ensures Accounts(rules, Step(rules, h, Deliver))
  {
    hide BatchOf, Reported, Merge, Flatten;
    if h.waiting != [] {
      ReportedStep(rules, h.open, h.waiting[0], h.closed == []);
      assert Flatten(h.closed) + (h.open + [h.waiting[0]]) + h.waiting[1..] == Flatten(h.closed) + h.open + h.waiting;
    }
  }

  lemma StepAccounts(rules: Rules, h: History, e: Event)
    requires ValidDimensions(rules.dims) && Accounts(rules, h)
    ensures Accounts(rules, Step(rules, h, e))
  {
    hide BatchOf, Reported, Merge, Flatten;
    match e
    case Add(rows) =>
      assert Flatten(h.closed) + h.open + (h.waiting + [rows]) == h.accepted + [rows];
    case Deliver =>
      DeliverAccounts(rules, h);
    case Export =>
      ReportedNothing(rules, false);
      FlattenStep(h.closed, h.open);
      assert Flatten(h.closed) + h.open + [] + h.waiting == Flatten(h.closed) + h.open + h.waiting;
  }

  /**
   * Over every interleaving of adds, deliveries and exports, the accepted batches are, in order, those of the
   * exported intervals, those of the open interval and those that wait; and each export reports its interval.
   */
  lemma {:induction false} RunAccounts(rules: Rules, events: seq<Event>)
    requires ValidDimensions(rules.dims)
    ensures Accounts(rules, Run(rules, events))
  {
    hide Accounts, Step;
    if events == [] {
      NothingAccounts(rules);
    } else {
      RunAccounts(rules, events[..|events| - 1]);
      StepAccounts(rules, Run(rules, events[..|events| - 1]), events[|events| - 1]);
    }
  }

  lemma NothingAccounts(rules: Rules)
    requires ValidDimensions(rules.dims)
    ensures Accounts(rules, NO_HISTORY)
  {
    ReportedNothing(rules, true);
  }

  /**
   * Over every run an export names the largest value of its interval, and the smallest exactly for the first
   * export, or when that value is 0; any other names something below it.
   */
  lemma MinExactIff(rules: Rules, events: seq<Event>, j: nat)
    requires ValidDimensions(rules.dims) && j < |Run(rules, events).exports|
    ensures |Run(rules, events).closed| == |Run(rules, events).exports|
    ensures var sent, rows := Run(rules, events).exports[j], Flatten(Run(rules, events).closed[j]);
            && sent.max == Most(rules, rows)
            && sent.min <= Least(rules, rows)
            && (sent.min == Least(rules, rows) <==> j == 0 || Least(rules, rows) == 0)
  {
    hide Run, BatchOf, Flatten, Least, Most;
    RunAccounts(rules, events);
    var h := Run(rules, events);
    ReportedBounds(rules, h.closed[j], j == 0);
  }

  lemma RunLast(rules: Rules, events: seq<Event>, e: Event)
    requires ValidDimensions(rules.dims)
    ensures Run(rules, events + [e]) == Step(rules, Run(rules, events), e)
  {
    assert (events + [e])[..|events|] == events;
  }

  /** A batch, its delivery and an export, from a state in which nothing waits or is open. */
  lemma Interval(rules: Rules, events: seq<Event>, rows: seq<Row>)
    requires ValidDimensions(rules.dims)
    requires var h := Run(rules, events); h.waiting == [] && h.open == [] && h.live.kvs == []
    ensures var h, next := Run(rules, events), Run(rules, events + [Add(rows), Deliver, Export]);
            && next.waiting == [] && next.open == [] && next.live == Live([], Start(false))
            && next.closed == h.closed + [[rows]] && next.exports == h.exports + [Merge(h.live.acc, BatchOf(rules, rows))]
  {
    hide Run, BatchOf, Merge;
    var none: seq<seq<Row>> := [];
    assert none + [rows] == [rows];
    RunLast(rules, events, Add(rows));
    RunLast(rules, events + [Add(rows)], Deliver);
    RunLast(rules, events + [Add(rows)] + [Deliver], Export);
    assert events + [Add(rows)] + [Deliver] + [Export] == events + [Add(rows), Deliver, Export];
  }

  /** One record of value 5 in each of two intervals: the second export says that the smallest value was 0. */
  lemma LaterMinIsZero() returns (rules: Rules, row: Row, events: seq<Event>)
    ensures ValidDimensions(rules.dims) && RowValue(rules, row) == 5
    ensures events == [Add([row]), Deliver, Export, Add([row]), Deliver, Export]
    ensures var h := Run(rules, events);
            && h.closed == [[[row]], [[row]]] && |h.exports| == 2
            && h.exports[0].min == 5 && h.exports[1].min == 0
  {
    rules := Rules([], "^", false, ["in"], [], false, ["in"], false);
    row := Row(map["in" := Int(5)], 1, "");
    var interval := [Add([row]), Deliver, Export];
    events := interval + interval;
    ValueIsFive(rules, row);
    LeastOfOne(rules, row);
    hide RowValue, SumsOf, Most, MergeSums, Run, Least;
    assert Run(rules, []) == NO_HISTORY by { NothingRun(rules); }
    assert [] + interval == interval;
    Interval(rules, [], [row]);
    Interval(rules, interval, [row]);
  }

  lemma NothingRun(rules: Rules)
    requires ValidDimensions(rules.dims)
    ensures Run(rules, []) == NO_HISTORY
  {
  }

  lemma ValueIsFive(rules: Rules, row: Row)
    requires rules.metrics == ["in"] && rules.multiMetrics == [] && !rules.sample && !rules.splitMetrics
    requires row.fields == map["in" := Int(5)]
    ensures RowValue(rules, row) == 5
  {
    assert ["in"][..0] == [];
    assert MetricsSum(row, ["in"]) == MetricsSum(row, []) + MetricOf(row, "in");
  }

  lemma LeastOfOne(rules: Rules, row: Row)
    ensures RowValue(rules, row) <= MAX_UINT64 && Least(rules, [row]) == RowValue(rules, row)
  {
    ValueFits(rules, row);
    hide RowValue;
    assert [row][..0] == [];
    assert Least(rules, []) == MAX_UINT64;
  }

  lemma ReportedBounds(rules: Rules, interval: seq<seq<Row>>, first: bool)
    requires ValidDimensions(rules.dims)
    ensures var all, rows := Reported(rules, interval, first), Flatten(interval);
            all.max == Most(rules, rows) && all.min == if first then Least(rules, rows) else 0
  {
  }

  // ---------------------------------------------------------------- conservation

  ghost function TotalAt(bs: seq<Batch>, key: string, i: nat): nat {
    if bs == [] then 0 else TotalAt(bs[..|bs| - 1], key, i) + At(bs[|bs| - 1], key, i)
  }

  lemma ReportedAt(rules: Rules, interval: seq<seq<Row>>, first: bool, key: string, i: nat)
    requires ValidDimensions(rules.dims) && i < |rules.names|
    ensures At(Reported(rules, interval, first), key, i) == U64(Gain(rules, Flatten(interval), key, i))
  {
    hide Gain, U64;
    NoGain(rules, Flatten(interval), key, i);
    ZeroMod();
  }

  lemma {:induction false} ExportsTotal(rules: Rules, closed: seq<seq<seq<Row>>>, exports: seq<Batch>, key: string, i: nat)
    requires ValidDimensions(rules.dims) && i < |rules.names| && |closed| == |exports|
    requires forall j :: 0 <= j < |closed| ==> exports[j] == Reported(rules, closed[j], j == 0)
    ensures U64(TotalAt(exports, key, i)) == U64(Gain(rules, Flatten(Flatten(closed)), key, i))
  {
    hide Gain, U64, At, Reported;
    if closed != [] {
      var n := |closed| - 1;
      ExportsTotal(rules, closed[..n], exports[..n], key, i);
      ReportedAt(rules, closed[n], n == 0, key, i);
      FlattenConcat(Flatten(closed[..n]), closed[n]);
      var a, b := Flatten(Flatten(closed[..n])), Flatten(closed[n]);
      GainConcat(rules, a, b, key, i);
      ModMod(Gain(rules, b, key, i));
      SumMod(TotalAt(exports[..n], key, i), At(exports[n], key, i), Gain(rules, a, key, i), Gain(rules, b, key, i));
    } else {
      assert Flatten(Flatten(closed)) == [];
      NoGain(rules, [], key, i);
    }
  }

  lemma SumMod(a: nat, b: nat, c: nat, d: nat)
    requires U64(a) == U64(c) && U64(b) == U64(d)
    ensures U64(a + b) == U64(c + d)
  {
    AddMod(a, b);
    AddMod(U64(a), b);
    AddMod(c, d);
    AddMod(U64(c), d);
  }

  /** Nothing of a key is lost or counted twice: all exports and what is open add up to all records delivered. */
  lemma Conservation(rules: Rules, events: seq<Event>, key: string, i: nat)
    requires ValidDimensions(rules.dims) && i < |rules.names|
    ensures var h := Run(rules, events);
            U64(TotalAt(h.exports, key, i) + At(h.live.acc, key, i))
            == U64(Gain(rules, Flatten(Flatten(h.closed) + h.open), key, i))
  {
    hide Gain, U64, At, Reported, Run;
    var h := Run(rules, events);
    RunAccounts(rules, events);
    ExportsTotal(rules, h.closed, h.exports, key, i);
    ReportedAt(rules, h.open, h.closed == [], key, i);
    FlattenConcat(Flatten(h.closed), h.open);
    var a, b := Flatten(Flatten(h.closed)), Flatten(h.open);
    GainConcat(rules, a, b, key, i);
    ModMod(Gain(rules, b, key, i));
    SumMod(TotalAt(h.exports, key, i), At(h.live.acc, key, i), Gain(rules, a, key, i), Gain(rules, b, key, i));
  }

  lemma {:induction false} SplitAmounts(rules: Rules, row: Row, n: nat)
    requires rules.splitMetrics && n <= |rules.metrics|
    ensures U64(AmountsSum(rules, row, n)) == U64(MetricsSum(row, rules.metrics[..n]) * Scale(rules, row))
  {
    hide U64, MetricOf, Scale;
    if n == 0 {
      assert rules.metrics[..0] == [];
    } else {
      SplitAmounts(rules, row, n - 1);
      assert rules.metrics[..n][..n - 1] == rules.metrics[..n - 1];
      var before, metric, scale := MetricsSum(row, rules.metrics[..n - 1]), MetricOf(row, rules.metrics[n - 1]), Scale(rules, row);
      assert (before + metric) * scale == before * scale + metric * scale;
      ModMod(metric * scale);
      SumMod(AmountsSum(rules, row, n - 1), U64(metric * scale), before * scale, metric * scale);
    }
  }

  /** A record's value for the bounds when its metrics are split: all of them, as often as it counts. */
  ghost predicate IsSplitValueOf(rules: Rules, row: Row, value: nat) {
    exists ns, scale: nat :: ReadsColumns(rules, row, ns) && ReadsScale(rules, row, scale)
      && value == (Sum(ns) * scale) % 0x1_0000_0000_0000_0000
  }

  lemma RowValueIs(rules: Rules, row: Row)
    ensures if rules.splitMetrics then IsSplitValueOf(rules, row, RowValue(rules, row)) else IsValueOf(rules, row, RowValue(rules, row))
  {
    hide IsValueOf, ReadsColumn, MetricsSum, Sum, AmountsSum, ValueOf;
    if rules.splitMetrics {
      SplitAmounts(rules, row, |rules.metrics|);
      assert rules.metrics[..|rules.metrics|] == rules.metrics;
      var ns := MetricsRead(row, rules.metrics);
      assert ReadsColumns(rules, row, ns) && ReadsScale(rules, row, Scale(rules, row));
    } else {
      ValueIs(rules, row);
    }
  }

  lemma ModMod(x: nat)
    ensures U64(U64(x)) == U64(x)
  {
  }
}
