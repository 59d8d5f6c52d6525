/** The flow worker in its own form: objects taken from a pool, filled, batched, sent and given back. */
module FlowWorkers {
  import opened Options
  import opened Batches
  import opened WorkerModel

  /** What an object holds after Reset. */
  const BLANK := Message(0, 0, 0, false)

  class Jchf {
    const id: nat
    var flow: Message

    constructor (id: nat)
      ensures this.id == id && flow == BLANK
    {
      this.id, flow := id, BLANK;
    }
  }

  function Ids(objects: seq<Jchf>): seq<nat> {
    seq(|objects|, i requires 0 <= i < |objects| => objects[i].id)
  }

  /** The slots of a batch. */
  function SlotsOf(msgs: seq<Jchf>): seq<Slot>
    reads msgs
  {
    seq(|msgs|, i requires 0 <= i < |msgs| reads msgs => Slot(msgs[i].id, msgs[i].flow))
  }

  ghost predicate Distinct(objects: seq<Jchf>) {
    forall i, j :: 0 <= i < j < |objects| ==> objects[i] != objects[j]
  }

  class FlowWorker {
    const settings: Settings
    var alpha: seq<Message>
    var got: Option<Message>
    var pool: seq<Jchf>
    var msgs: seq<Jchf>

    /** Between two steps the objects are all there, each once, and those in the pool are blank. */
    ghost predicate Valid()
      reads this, pool
    {
      && Distinct(pool + msgs) && |pool| + |msgs| == CHAN_SLACK
      && forall i :: 0 <= i < |pool| ==> pool[i].flow == BLANK
    }

    ghost function View(): Worker
      reads this, msgs
    {
      Worker(alpha, got, Ids(pool), SlotsOf(msgs))
    }

    constructor (settings: Settings)
      ensures Valid() && fresh(pool) && this.settings == settings
      ensures View() == Worker([], None, seq(CHAN_SLACK, (i: nat) => i), [])
    {
      this.settings, alpha, got, pool, msgs := settings, [], None, [], [];
      new;
      for j := 0 to CHAN_SLACK
        invariant |pool| == j && fresh(pool) && alpha == [] && got == None && msgs == []
        invariant Distinct(pool) && forall i :: 0 <= i < j ==> pool[i].flow == BLANK && pool[i].id == i
      {
        var o := new Jchf(j);
        pool := pool + [o];
      }
      assert pool + msgs == pool;
    }

    /** The send of a producer, which drops the flow when the channel is full. */
    method Arrive(f: Message) returns (sent: bool)
      requires Valid()
      modifies this`alpha
      ensures Valid() && sent == (|old(alpha)| < 8000)
      ensures View() == old(View()).(alpha := if sent then old(alpha) + [f] else old(alpha))
    {
      sent := |alpha| < CHAN_SLACK;
      if sent {
        alpha := alpha + [f];
      }
    }

    method Receive()
      requires Valid() && got.None? && alpha != []
      modifies this`alpha, this`got
      ensures Valid() && View() == old(View()).(alpha := old(alpha)[1..], got := Some(old(alpha)[0]))
    {
      alpha, got := alpha[1..], Some(alpha[0]);
    }

    /** Multiplies the sample rates when a batch is sampled. */
    method ScaleRates(order: seq<Jchf>, ghost frame: set<Jchf>)
      requires Distinct(order) && forall i :: 0 <= i < |order| ==> order[i] in frame
      modifies frame
      ensures FlowsOf(order) == ScaledAll(old(FlowsOf(order)), settings.rate)
    {
      hide Scaled;
      for i := 0 to |order|
        invariant forall j :: 0 <= j < i ==> order[j].flow == Scaled(old(order[j].flow), settings.rate)
        invariant forall j :: i <= j < |order| ==> order[j].flow == old(order[j].flow)
      {
        order[i].flow := Scaled(order[i].flow, settings.rate);
      }
    }

    /** One list of flows for each company. */
    method SplitByCompany(order: seq<Jchf>) returns (splits: map<int, seq<Message>>)
      ensures splits == Splits(FlowsOf(order))
    {
      hide Splits;
      splits := map[];
      ghost var flows := FlowsOf(order);
      assert Splits(flows[..0]) == map[] by { NoSplits(flows[..0]); }
      for i := 0 to |order|
        invariant splits == Splits(flows[..i])
      {
        var msg := order[i].flow;
        SplitsStep(flows[..i], msg);
        if msg.company !in splits {
          splits := splits[msg.company := []];
        }
        splits := splits[msg.company := splits[msg.company] + [msg]];
        assert flows[..i + 1] == flows[..i] + [msg];
      }
      assert flows[..|order|] == flows;
    }

    /** Blanks the objects and puts them back; the pool always has room, so no send blocks. */
    method GiveBack(order: seq<Jchf>, ghost frame: set<Jchf>)
      requires |pool| + |order| <= CHAN_SLACK && forall i :: 0 <= i < |order| ==> order[i] in frame
      requires forall i :: 0 <= i < |pool| ==> pool[i].flow == BLANK
      modifies this`pool, frame
      ensures pool == old(pool) + order && forall i :: 0 <= i < |pool| ==> pool[i].flow == BLANK
    {
      for i := 0 to |order|
        invariant pool == old(pool) + order[..i]
        invariant forall j :: 0 <= j < |pool| ==> pool[j].flow == BLANK
      {
        order[i].flow := BLANK;
        assert |pool| < CHAN_SLACK;
        pool := pool + [order[i]];
      }
    }

    /** The messages of a batch in the order, and with the sample rates, in which they are sent; and how many are. */
    method Sample(swaps: seq<(nat, nat)>) returns (order: seq<Jchf>, keep: nat)
      requires Distinct(msgs) && settings.serialize && msgs != []
      modifies msgs
      ensures keep == Kept(settings, |msgs|) <= |order|
      ensures multiset(order) == multiset(msgs)
      ensures Ids(order) == old(Objects(Ordered(settings, SlotsOf(msgs), swaps)))
      ensures FlowsOf(order)[..keep] == old(Serialized(settings, SlotsOf(msgs), swaps))
      ensures SentOf(settings, old(FlowsOf(msgs)), old(Flows(Ordered(settings, SlotsOf(msgs), swaps))), FlowsOf(order)[..keep])
    {
      SerializedIsSent(settings, SlotsOf(msgs), swaps);
      hide SentOf, Swapped, Scaled, SlotsOf, Ordered, Serialized, Kept, ScaledAll, Distinct;
      SlotsOfParts(msgs);
      SampledOrNot(settings, SlotsOf(msgs), swaps);
      order, keep := msgs, |msgs|;
      if settings.rate > 1 && keep > settings.min {
        order := Shuffle(msgs, swaps);
        SwappedSlotsOf(msgs, swaps);
        SlotsOfParts(order);
        DistinctShuffled(msgs, order);
        keep := if |msgs| / settings.rate > 1 then |msgs| / settings.rate else 1;
        ScaleRates(order, set o | o in msgs);
      }
    }

    /** Sends the batch, and gives its objects back to the pool. */
    method SendBytesOn(swaps: seq<(nat, nat)>)
        returns (splits: map<int, seq<Message>>, rolled: seq<Message>, ghost shuffled: seq<Message>, ghost sent: seq<Message>)
      requires Valid()
      modifies this`pool, this`msgs, msgs
      ensures Valid() && View() == Flush(old(View()), settings, swaps)
      ensures rolled == Flows(old(SlotsOf(msgs)))
      ensures splits == Splits(old(Serialized(settings, SlotsOf(msgs), swaps)))
      ensures SentOf(settings, rolled, shuffled, sent) && IsSplit(sent, splits) && msgs == []
    {
      hide Serialized, Ordered, SlotsOf, Splits, Distinct, SentOf, IsSplit;
      SlotsOfParts(msgs);
      SerializedIsSent(settings, SlotsOf(msgs), swaps);
      shuffled, sent := Flows(Ordered(settings, SlotsOf(msgs), swaps)), Serialized(settings, SlotsOf(msgs), swaps);
      SplitsAreSplit(sent);
      if |msgs| == 0 {
        NothingToSend(settings, SlotsOf(msgs), swaps);
        assert Ids(pool) + [] == Ids(pool);
        return map[], [], shuffled, sent;
      }
      DistinctParts(pool, msgs);
      rolled := FlowsOf(msgs);
      var order, keep := msgs, 0;
      if settings.serialize {
        order, keep := Sample(swaps);
      } else {
        NothingSerialized(settings, SlotsOf(msgs), swaps);
      }
      splits := SplitByCompany(order[..keep]);
      assert FlowsOf(order[..keep]) == FlowsOf(order)[..keep];
      DistinctPermuted(pool, msgs, order);
      assert forall i :: 0 <= i < |pool| ==> pool[i].flow == BLANK;
      GiveBack(order, set o | o in msgs);
      msgs := [];
      assert pool + msgs == pool && Ids(pool) == Ids(old(pool)) + Ids(order);
      assert SlotsOf(msgs) == [] by { SlotsOfParts(msgs); }
    }

    /** Takes an object from the pool and fills it; a flow that does not convert or pass gives it straight back. */
    method Fill(f: Message) returns (fate: Fate)
      requires Valid() && pool != [] && got.None?
      modifies this`pool, this`msgs, pool
      ensures Valid() && fate == FateOf(old(View()), settings, f)
      ensures View() == if fate.Batched? then
                          old(View()).(pool := old(Ids(pool))[1..], batch := old(SlotsOf(msgs)) + [Slot(old(pool[0].id), f)])
                        else
                          old(View()).(pool := old(Ids(pool))[1..] + [old(pool[0].id)])
      ensures got == None && alpha == old(alpha) && msgs == old(msgs) + if fate.Batched? then [old(pool[0])] else []
    {
      hide Distinct;
      Rotated(pool, msgs);
      var jflow := pool[0];
      pool := pool[1..];
      jflow.flow := f;
      if settings.converts(f) && settings.passes(jflow.flow) {
        msgs := msgs + [jflow];
        return Batched;
      }
      jflow.flow := BLANK;
      assert |pool| < CHAN_SLACK;
      pool := pool + [jflow];
      fate := if settings.converts(f) then Filtered else Errored;
    }

    /** Deals with the flow at hand; with an empty pool, sends the batch and puts the flow back if the channel has room. */
    method Process(maxFlows: int, swaps: seq<(nat, nat)>)
        returns (fate: Fate, splits: map<int, seq<Message>>)
      requires Valid() && got.Some?
      modifies this`alpha, this`got, this`pool, this`msgs, pool, msgs
      ensures Valid() && View() == Processed(old(View()), settings, maxFlows, swaps)
      ensures fate == FateOf(old(View()), settings, old(got).value)
      ensures var f := old(got).value;
              if old(pool) != [] then
                && (fate == Batched <==> settings.converts(f) && settings.passes(f))
                && (fate == Errored <==> !settings.converts(f))
                && (fate == Filtered <==> settings.converts(f) && !settings.passes(f))
              else fate == if |old(alpha)| < 8000 then Requeued else Dropped
      ensures alpha == if fate == Requeued then old(alpha) + [old(got).value] else old(alpha)
      ensures if old(pool) == [] then msgs == []
              else if fate != Batched then msgs == old(msgs)
              else if |old(msgs)| + 1 >= maxFlows then msgs == []
              else msgs == old(msgs) + [old(pool[0])]
      ensures splits == Splits(Serialized(settings, old(Flushed(View(), settings, maxFlows)), swaps))
    {
      hide Flush, Serialized, Splits, Distinct;
      var f, rolled := got.value, [];
      got, splits := None, map[];
      NothingToSend(settings, [], swaps);
      if |pool| > 0 {
        fate := Fill(f);
        if fate.Batched? && |msgs| >= maxFlows {
          ghost var shuffled, sent;
          splits, rolled, shuffled, sent := SendBytesOn(swaps);
        }
      } else {
        ghost var shuffled, sent;
        splits, rolled, shuffled, sent := SendBytesOn(swaps);
        if |alpha| < CHAN_SLACK {
          fate, alpha := Requeued, alpha + [f];
        } else {
          fate := Dropped;
        }
      }
    }
  }

  lemma {:induction false} DistinctOnce(s: seq<Jchf>, o: Jchf)
    requires Distinct(s) && o in s
    ensures multiset(s)[o] == 1
  {
    var n := |s| - 1;
    var before, last := s[..n], s[n];
    assert s == before + [last];
    if o in before {
      DistinctOnce(before, o);
    }
  }

  lemma OnceDistinct(s: seq<Jchf>)
    requires forall o :: o in s ==> multiset(s)[o] == 1
    ensures Distinct(s)
  {
    forall i, j | 0 <= i < j < |s| ensures s[i] != s[j] {
      assert s == s[..j] + s[j..];
      assert s[i] in s[..j] && s[j] in s[j..];
      assert multiset(s)[s[i]] == multiset(s[..j])[s[i]] + multiset(s[j..])[s[i]];
    }
  }

  lemma DistinctSame(a: seq<Jchf>, b: seq<Jchf>)
    requires multiset(a) == multiset(b) && Distinct(a)
    ensures Distinct(b)
  {
    hide Distinct;
    forall o | o in b ensures multiset(b)[o] == 1 {
      assert o in multiset(b);
      DistinctOnce(a, o);
    }
    OnceDistinct(b);
  }

  lemma DistinctPermuted(pool: seq<Jchf>, msgs: seq<Jchf>, order: seq<Jchf>)
    requires multiset(order) == multiset(msgs) && Distinct(pool + msgs)
    ensures Distinct(pool + order) && |order| == |msgs|
    ensures forall i :: 0 <= i < |order| ==> order[i] in msgs
  {
    hide Distinct;
    DistinctSame(pool + msgs, pool + order);
    assert |multiset(order)| == |multiset(msgs)|;
    forall i | 0 <= i < |order| ensures order[i] in msgs {
      assert order[i] in multiset(order);
    }
  }

  lemma Rotated(pool: seq<Jchf>, msgs: seq<Jchf>)
    requires Distinct(pool + msgs) && pool != []
    ensures Distinct(pool[1..] + (msgs + [pool[0]])) && Distinct(pool[1..] + [pool[0]] + msgs)
    ensures pool[0] !in pool[1..] && pool[0] !in msgs
  {
    assert pool == [pool[0]] + pool[1..];
    DistinctSame(pool + msgs, pool[1..] + (msgs + [pool[0]]));
    DistinctSame(pool + msgs, pool[1..] + [pool[0]] + msgs);
    FirstOnce(pool + msgs);
    assert pool + msgs == [pool[0]] + (pool[1..] + msgs);
  }

  lemma FirstOnce(s: seq<Jchf>)
    requires Distinct(s) && s != []
    ensures s[0] !in s[1..]
  {
  }

  lemma DistinctShuffled(msgs: seq<Jchf>, order: seq<Jchf>)
    requires multiset(order) == multiset(msgs) && Distinct(msgs)
    ensures Distinct(order) && |order| == |msgs|
    ensures forall i :: 0 <= i < |order| ==> order[i] in msgs
  {
    assert [] + msgs == msgs && [] + order == order;
    DistinctPermuted([], msgs, order);
  }

  lemma DistinctParts(pool: seq<Jchf>, msgs: seq<Jchf>)
    requires Distinct(pool + msgs)
    ensures Distinct(msgs) && forall i :: 0 <= i < |pool| ==> pool[i] !in msgs
  {
    var all := pool + msgs;
    assert forall i :: 0 <= i < |msgs| ==> msgs[i] == all[|pool| + i];
    assert forall i :: 0 <= i < |pool| ==> pool[i] == all[i];
  }

  lemma SlotsOfParts(msgs: seq<Jchf>)
    ensures Objects(SlotsOf(msgs)) == Ids(msgs) && Flows(SlotsOf(msgs)) == FlowsOf(msgs) && |SlotsOf(msgs)| == |msgs|
  {
  }

  lemma NothingToSend(s: Settings, batch: seq<Slot>, swaps: seq<(nat, nat)>)
    requires batch == []
    ensures Splits(Serialized(s, batch, swaps)) == map[] && Ordered(s, batch, swaps) == []
  {
  }

  lemma SampledOrNot(s: Settings, batch: seq<Slot>, swaps: seq<(nat, nat)>)
    requires s.serialize && batch != []
    ensures if s.rate > 1 && |batch| > s.min then
              && Kept(s, |batch|) == (if |batch| / s.rate > 1 then |batch| / s.rate else 1) <= |batch|
              && Ordered(s, batch, swaps) == Swapped(batch, swaps)
              && |ScaledAll(Flows(Swapped(batch, swaps)), s.rate)| == |batch|
              && Serialized(s, batch, swaps) == ScaledAll(Flows(Swapped(batch, swaps)), s.rate)[..Kept(s, |batch|)]
            else
              Kept(s, |batch|) == |batch| && Ordered(s, batch, swaps) == batch && Serialized(s, batch, swaps) == Flows(batch)
  {
    hide Swapped, Scaled;
    KeptAtMost(s, |batch|);
  }

  lemma NothingSerialized(s: Settings, batch: seq<Slot>, swaps: seq<(nat, nat)>)
    requires !s.serialize
    ensures Serialized(s, batch, swaps) == [] && Ordered(s, batch, swaps) == batch
  {
  }

  function FlowsOf(msgs: seq<Jchf>): seq<Message>
    reads msgs
  {
    seq(|msgs|, i requires 0 <= i < |msgs| reads msgs => msgs[i].flow)
  }

  lemma OfCompanyStep(flows: seq<Message>, f: Message, company: int)
    ensures OfCompany(flows + [f], company)
            == if f.company == company then OfCompany(flows, company) + [f] else OfCompany(flows, company)
    ensures company !in Companies(flows) ==> OfCompany(flows, company) == []
  {
    assert (flows + [f])[..|flows|] == flows;
    EachInItsCompany(flows, company, f);
  }

  lemma NoSplits(flows: seq<Message>)
    requires flows == []
    ensures Splits(flows) == map[]
  {
  }

  lemma SplitsStep(flows: seq<Message>, f: Message)
    ensures var was := Splits(flows);
            Splits(flows + [f]) == was[f.company := (if f.company in was then was[f.company] else []) + [f]]
  {
    hide OfCompany;
    assert Companies(flows + [f]) == Companies(flows) + {f.company};
    forall c | c in Companies(flows + [f])
      ensures Splits(flows + [f])[c] == if f.company == c then OfCompany(flows, c) + [f] else OfCompany(flows, c)
    {
      OfCompanyStep(flows, f, c);
    }
    OfCompanyStep(flows, f, f.company);
  }

  lemma SwappedSlotsOf(msgs: seq<Jchf>, swaps: seq<(nat, nat)>)
    ensures multiset(Swapped(msgs, swaps)) == multiset(msgs)
    ensures SlotsOf(Swapped(msgs, swaps)) == Swapped(SlotsOf(msgs), swaps)
    decreases |swaps|
  {
    if swaps != [] {
      hide Exchange;
      var n := |swaps| - 1;
      SwappedSlotsOf(msgs, swaps[..n]);
      ExchangedSlotsOf(msgs, Swapped(msgs, swaps[..n]), swaps[n].0, swaps[n].1);
    }
  }

  lemma ExchangedSlotsOf(msgs: seq<Jchf>, order: seq<Jchf>, i: nat, j: nat)
    requires multiset(order) == multiset(msgs)
    ensures SlotsOf(Exchange(order, i, j)) == Exchange(SlotsOf(order), i, j)
  {
  }
}
