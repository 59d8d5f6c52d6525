/** How messages are sampled and cut into batches before they are serialized. */
module Batches {
  import opened Filters
  import opened Sequences
  import opened Totals
  import opened Wire

  const MAX_INT64 := 0x7FFF_FFFF_FFFF_FFFF
  const CHAN_SLACK := 8000

  function EffectiveMaxFlowsPerMessage(n: int): int {
    if n <= 0 then 1 else n
  }

  // ---------------------------------------------------------------- slice bounds

  lemma Int64Of(x: int)
    requires 0 <= x <= 2 * MAX_INT64
    ensures if x <= MAX_INT64 then Int64(x) == x else Int64(x) < 0
  {
  }

  /** Slices of the same size, one after the other, from 0 to end. */
  ghost predicate Chain(bounds: seq<(int, int)>, size: int, end: int) {
    && (forall i :: 0 <= i < |bounds| ==> bounds[i].1 - bounds[i].0 == size && 0 <= bounds[i].0 && bounds[i].1 <= end)
    && (forall i :: 0 < i < |bounds| ==> bounds[i - 1].1 == bounds[i].0)
    && if bounds == [] then end == 0 else bounds[0].0 == 0 && bounds[|bounds| - 1].1 == end
  }

  /** Slices one after the other from 0 to keep, none empty, all but the last of the full size. */
  ghost predicate Tiles(bounds: seq<(int, int)>, size: int, keep: int) {
    if keep == 0 then bounds == []
    else
      && bounds != []
      && Chain(bounds[..|bounds| - 1], size, bounds[|bounds| - 1].0)
      && bounds[|bounds| - 1].0 < keep == bounds[|bounds| - 1].1 <= bounds[|bounds| - 1].0 + size
  }

  lemma ChainStep(bounds: seq<(int, int)>, size: int, end: int)
    requires Chain(bounds, size, end) && size > 0
    ensures Chain(bounds + [(end, end + size)], size, end + size)
  {
  }

  /** The limit of the loop wraps around for a batch size close to the largest integer; then nothing is sent. */
  ghost predicate AreSliceBounds(batchSize: int, keep: nat, bounds: seq<(int, int)>) {
    var size := if batchSize <= 0 then 1 else batchSize;
    if keep == 0 || keep + size <= 0x7FFF_FFFF_FFFF_FFFF then Tiles(bounds, size, keep) else bounds == []
  }

  /** A message and the largest batch size: one slice would do, and there is none. */
  lemma LargestSizeSendsNothing(bounds: seq<(int, int)>)
    requires AreSliceBounds(MAX_INT64, 1, bounds)
    ensures bounds == [] && Tiles([(0, 1)], MAX_INT64, 1) && !Tiles(bounds, MAX_INT64, 1)
  {
    assert [(0, 1)][..0] == [];
  }

  method JchfExportSliceBounds(batchSize: int, keep: nat) returns (bounds: seq<(int, int)>)
    requires batchSize <= MAX_INT64 && keep <= MAX_INT64
    ensures AreSliceBounds(batchSize, keep, bounds)
  {
    hide Int64, Chain;
    var size := EffectiveMaxFlowsPerMessage(batchSize);
    Int64Of(keep + size);
    bounds := [];
    var last, next := 0, size;
    assert Chain([], size, 0) by { NoChain(size); }
    while next < Int64(keep + size)
      invariant last + size == next && 0 <= last && (last < keep || last == 0)
      invariant Chain(bounds, size, last)
      invariant bounds != [] ==> keep > 0 && keep + size <= MAX_INT64
      decreases keep + size - next
    {
      var batch := next;
      if batch > keep {
        batch := keep;
      }
      ghost var was := bounds;
      bounds := bounds + [(last, batch)];
      if batch == keep {
        assert bounds[..|bounds| - 1] == was;
        break;
      }
      ChainStep(was, size, last);
      last := next;
      Int64Of(next + size);
      next := Int64(next + size);
    }
  }

  lemma NoChain(size: int)
    ensures Chain([], size, 0)
  {
  }

  predicate InRange(bounds: seq<(int, int)>, end: int) {
    forall i :: 0 <= i < |bounds| ==> 0 <= bounds[i].0 <= bounds[i].1 <= end
  }

  /** The messages of each slice. */
  function Slices<T>(msgs: seq<T>, bounds: seq<(int, int)>): seq<seq<T>>
    requires InRange(bounds, |msgs|)
  {
    seq(|bounds|, i requires 0 <= i < |bounds| => msgs[bounds[i].0..bounds[i].1])
  }

  lemma SlicesStep<T>(msgs: seq<T>, bounds: seq<(int, int)>)
    requires InRange(bounds, |msgs|) && bounds != []
    ensures var (n, last) := (|bounds| - 1, bounds[|bounds| - 1]);
            && InRange(bounds[..n], |msgs|)
            && Flatten(Slices(msgs, bounds)) == Flatten(Slices(msgs, bounds[..n])) + msgs[last.0..last.1]
  {
    var n := |bounds| - 1;
    assert Slices(msgs, bounds) == Slices(msgs, bounds[..n]) + [msgs[bounds[n].0..bounds[n].1]];
    FlattenStep(Slices(msgs, bounds[..n]), msgs[bounds[n].0..bounds[n].1]);
  }

  lemma {:induction false} ChainInRange(bounds: seq<(int, int)>, size: int, end: int)
    requires Chain(bounds, size, end) && size > 0
    ensures end == size * |bounds|
  {
    if bounds != [] {
      var n := |bounds| - 1;
      ChainInit(bounds, size, end);
      ChainInRange(bounds[..n], size, bounds[n].0);
      assert size * (n + 1) == size * n + size;
    }
  }

  lemma ChainInit(bounds: seq<(int, int)>, size: int, end: int)
    requires Chain(bounds, size, end) && size > 0 && bounds != []
    ensures Chain(bounds[..|bounds| - 1], size, bounds[|bounds| - 1].0)
  {
    var n := |bounds| - 1;
    assert n > 0 ==> bounds[..n][n - 1] == bounds[n - 1];
    forall i | 0 <= i < n ensures bounds[i].1 <= bounds[n].0 {
      ChainOrdered(bounds, size, end, i, n);
    }
  }

  lemma {:induction false} ChainOrdered(bounds: seq<(int, int)>, size: int, end: int, i: nat, j: nat)
    requires Chain(bounds, size, end) && size > 0 && i < j < |bounds|
    ensures bounds[i].1 <= bounds[j].0
  {
    if i < j - 1 {
      ChainOrdered(bounds, size, end, i, j - 1);
    }
  }

  lemma ChainEnd(bounds: seq<(int, int)>, size: int, end: int)
    requires Chain(bounds, size, end)
    ensures if bounds == [] then end == 0 else var n := |bounds| - 1; bounds[n].1 == end == bounds[n].0 + size && bounds[n].0 >= 0
  {
  }

  lemma {:induction false} ChainCovers<T>(msgs: seq<T>, bounds: seq<(int, int)>, size: int, end: int)
    requires Chain(bounds, size, end) && size > 0 && end <= |msgs|
    ensures InRange(bounds, |msgs|) && Flatten(Slices(msgs, bounds)) == msgs[..end]
    decreases |bounds|
  {
    hide Slices, Flatten, Chain;
    ChainEnd(bounds, size, end);
    if bounds == [] {
      assert Flatten(Slices(msgs, bounds)) == [] by { NoSlices(msgs); }
    } else {
      var n := |bounds| - 1;
      ChainInit(bounds, size, end);
      ChainCovers(msgs, bounds[..n], size, bounds[n].0);
      SlicesStep(msgs, bounds);
    }
  }

  lemma NoSlices<T>(msgs: seq<T>)
    ensures Flatten(Slices(msgs, [])) == []
  {
  }

  /** The slices cover the kept messages, each once and in order, in as few slices of the size as possible. */
  lemma TilesCover<T>(msgs: seq<T>, bounds: seq<(int, int)>, size: int, keep: nat)
    requires Tiles(bounds, size, keep) && size > 0 && keep <= |msgs|
    ensures InRange(bounds, |msgs|) && Flatten(Slices(msgs, bounds)) == msgs[..keep]
    ensures forall i :: 0 <= i < |bounds| ==> 0 < bounds[i].1 - bounds[i].0 <= size
    ensures if keep == 0 then bounds == [] else size * (|bounds| - 1) < keep <= size * |bounds|
  {
    hide Slices, Flatten;
    if keep == 0 {
      NoSlices(msgs);
    } else {
      var n := |bounds| - 1;
      ChainCovers(msgs, bounds[..n], size, bounds[n].0);
      ChainInRange(bounds[..n], size, bounds[n].0);
      assert forall i :: 0 <= i < n ==> bounds[i] == bounds[..n][i];
      SlicesStep(msgs, bounds);
      assert size * (n + 1) == size * n + size;
    }
  }

  // ---------------------------------------------------------------- sampling

  datatype Message = Message(flow: int, company: int, sampleRate: nat, applySample: bool)

  /** How many of n messages are exported. */
  function KeepOf(n: nat, rate: int, min: int): nat {
    if rate > 1 && n > min then (if n / rate > 1 then n / rate else 1) else n
  }

  /** A sample is one message in rate, rounded down, but at least one. */
  lemma KeepBounds(n: nat, rate: int, min: int)
    requires n > 0
    ensures 1 <= KeepOf(n, rate, min) <= n
    ensures rate > 1 && n > min ==> KeepOf(n, rate, min) == 1 || KeepOf(n, rate, min) * rate <= n
    ensures rate > 1 && n > min ==> n < (KeepOf(n, rate, min) + 1) * rate
    ensures rate <= 1 || n <= min ==> KeepOf(n, rate, min) == n
  {
    if rate > 1 {
      QuotientBounds(n, rate);
      if n / rate == 0 {
        assert n < rate;
      }
    }
  }

  lemma QuotientBounds(n: nat, d: nat)
    requires d > 0
    ensures 0 <= n / d <= n && (n / d) * d <= n < (n / d + 1) * d
  {
    var q := n / d;
    assert n == d * q + n % d;
    assert (q + 1) * d == d * q + d;
    assert q <= d * q by { AtLeast(q, d); }
  }

  lemma AtLeast(q: nat, d: nat)
    requires d > 0
    ensures q <= d * q
  {
  }

  function Exchange<T>(s: seq<T>, i: nat, j: nat): (t: seq<T>)
    ensures |t| == |s| && multiset(t) == multiset(s)
  {
    if i < |s| && j < |s| then s[i := s[j]][j := s[i]] else s
  }

  /** Exchanges elements, in whatever way the random source asks. */
  function Swapped<T>(s: seq<T>, swaps: seq<(nat, nat)>): (t: seq<T>)
    ensures |t| == |s| && multiset(t) == multiset(s)
  {
    if swaps == [] then s
    else Exchange(Swapped(s, swaps[..|swaps| - 1]), swaps[|swaps| - 1].0, swaps[|swaps| - 1].1)
  }

  method Shuffle<T>(s: seq<T>, swaps: seq<(nat, nat)>) returns (t: seq<T>)
    ensures t == Swapped(s, swaps)
  {
    t := s;
    for n := 0 to |swaps|
      invariant t == Swapped(s, swaps[..n])
    {
      var i, j := swaps[n].0, swaps[n].1;
      if i < |t| && j < |t| {
        t := t[i := t[j]][j := t[i]];
      }
      assert swaps[..n + 1][..n] == swaps[..n];
    }
    assert swaps[..|swaps|] == swaps;
  }

  function Scaled(m: Message, rate: int): Message {
    m.(sampleRate := (m.sampleRate * (rate % 0x1_0000_0000)) % 0x1_0000_0000)
  }

  /** The same message, standing for as many more. */
  predicate IsRaised(now: Message, was: Message, rate: int) {
    && now.flow == was.flow && now.company == was.company && now.applySample == was.applySample
    && now.sampleRate == (was.sampleRate * rate) % 0x1_0000_0000
  }

  lemma ScaledIsRaised(m: Message, rate: int)
    requires rate > 0
    ensures IsRaised(Scaled(m, rate), m, rate)
  {
    var w := 0x1_0000_0000;
    TimesMod(m.sampleRate, rate, w);
  }

  lemma TimesMod(x: nat, y: nat, w: nat)
    requires w > 0
    ensures (x * (y % w)) % w == (x * y) % w
  {
    var q, r := y / w, y % w;
    assert y == w * q + r;
    assert x * (w * q + r) == w * (x * q) + x * r;
    var p, l := (x * r) / w, (x * r) % w;
    assert x * r == w * p + l;
    assert w * (x * q) + w * p == w * (x * q + p);
    ModUnique(x * y, w, x * q + p, l);
  }

  function ScaledAll(ms: seq<Message>, rate: int): seq<Message> {
    seq(|ms|, i requires 0 <= i < |ms| => Scaled(ms[i], rate))
  }

  // ---------------------------------------------------------------- exports

  /** The batches that go to the serializer: the kept messages in order, unless the limit of the slice loop wraps around. */
  method ExportJchfBatches<T>(msgs: seq<T>, keep: nat, maxFlows: int) returns (out: seq<seq<T>>)
    requires maxFlows <= MAX_INT64 && keep <= |msgs| <= MAX_INT64
    ensures Flatten(out) == if keep + (if maxFlows <= 0 then 1 else maxFlows) > 0x7FFF_FFFF_FFFF_FFFF then [] else msgs[..keep]
    ensures forall i :: 0 <= i < |out| ==> 0 < |out[i]| <= if maxFlows <= 0 then 1 else maxFlows
  {
    hide Slices, Flatten, Tiles;
    var bounds := JchfExportSliceBounds(maxFlows, keep);
    NoSlices(msgs);
    if keep == 0 || keep + EffectiveMaxFlowsPerMessage(maxFlows) <= MAX_INT64 {
      TilesCover(msgs, bounds, EffectiveMaxFlowsPerMessage(maxFlows), keep);
    }
    out := [];
    for i := 0 to |bounds|
      invariant |out| == i && forall j :: 0 <= j < i ==> out[j] == msgs[bounds[j].0..bounds[j].1]
    {
      out := out + [msgs[bounds[i].0..bounds[i].1]];
    }
    SlicesAre(msgs, bounds, out);
  }

  lemma SlicesAre<T>(msgs: seq<T>, bounds: seq<(int, int)>, out: seq<seq<T>>)
    requires InRange(bounds, |msgs|) && |out| == |bounds|
    requires forall j :: 0 <= j < |out| ==> out[j] == msgs[bounds[j].0..bounds[j].1]
    ensures out == Slices(msgs, bounds)
  {
  }

  predicate IsSampled(msgs: seq<Message>, rate: int, min: int) {
    |msgs| > 1 && msgs[0].applySample && rate > 1 && |msgs| > min
  }

  /**
   * Filters, samples and exports some messages. What is exported is, in some order, a part of what passes
   * the filters: all of it, or a sample of the size KeepOf with the sample rates raised to match.
   */
  method HandleInput(msgs: seq<Message>, filters: seq<Message -> bool>, swaps: seq<(nat, nat)>,
                     rate: int, min: int, maxFlows: int) returns (out: seq<seq<Message>>, ghost order: seq<Message>)
    requires maxFlows <= MAX_INT64 && |msgs| <= MAX_INT64
    ensures multiset(order) == multiset(Passing(msgs, filters)) && |order| == |Passing(msgs, filters)|
    ensures var passed, size := Passing(msgs, filters), if maxFlows <= 0 then 1 else maxFlows;
            var keep := if IsSampled(passed, rate, min) then KeepOf(|passed|, rate, min) else |passed|;
            && keep <= |order| && |ScaledAll(order, rate)| == |order|
            && Flatten(out) == if keep + size > MAX_INT64 then []
                               else if IsSampled(passed, rate, min) then ScaledAll(order, rate)[..keep] else passed
    ensures forall i :: 0 <= i < |out| ==> 0 < |out[i]| <= if maxFlows <= 0 then 1 else maxFlows
    ensures var passed, sent := Passing(msgs, filters), Flatten(out);
            if |passed| > 1 && passed[0].applySample && rate > 1 && |passed| > min then
              forall i :: 0 <= i < |sent| ==> i < |order| && IsRaised(sent[i], order[i], rate)
            else
              order == passed && (sent == [] || sent == passed)
  {
    hide Flatten, Passing, Scaled, IsRaised;
    var passed := Reduce(msgs, filters);
    order := passed;
    var keep, doSample := |passed|, false;
    if keep > 1 && passed[0].applySample {
      doSample := true;
    }
    if doSample && rate > 1 && keep > min {
      KeepBounds(|passed|, rate, min);
      var shuffled := Shuffle(passed, swaps);
      order := shuffled;
      keep := if |shuffled| / rate > 1 then |shuffled| / rate else 1;
      out := ExportJchfBatches(ScaledAll(shuffled, rate), keep, maxFlows);
      forall i | 0 <= i < |Flatten(out)| ensures i < |order| && IsRaised(Flatten(out)[i], order[i], rate) {
        ScaledIsRaised(order[i], rate);
      }
    } else {
      out := ExportJchfBatches(passed, keep, maxFlows);
      assert passed[..keep] == passed;
    }
  }

  // ---------------------------------------------------------------- shrinking

  /** One report that messages were too big. */
  function Shrunk(n: int): int {
    if 3 * n / 4 > 1 then 3 * n / 4 else 1
  }

  function ShrunkTimes(n: int, k: nat): int {
    if k == 0 then n else Shrunk(ShrunkTimes(n, k - 1))
  }

  /** Every report makes a size above 1 smaller; sizes reach 1, never go below, and stay there. */
  lemma {:induction false} ShrinksToOne(n: int, k: nat)
    requires n >= 1
    ensures k > 0 ==> var before, now := ShrunkTimes(n, k - 1), ShrunkTimes(n, k);
              if before > 2 then 3 * before - 4 < 4 * now <= 3 * before else now == 1
    ensures 1 <= ShrunkTimes(n, k) <= (if k < n then n - k else 1)
    ensures k > 0 ==> ShrunkTimes(n, k) < ShrunkTimes(n, k - 1) || ShrunkTimes(n, k - 1) == 1 == ShrunkTimes(n, k)
  {
    if k > 0 {
      ShrinksToOne(n, k - 1);
    }
  }
}
