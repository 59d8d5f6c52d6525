/**
 * A flow worker as a state machine: a channel of flows, a pool of objects to put them in,
 * and the batch of filled objects, with producers that add flows between any two of its steps.
 */
module WorkerModel {
  import opened Options
  import opened Batches
  import opened Sequences

  /** An object of the batch and the flow it holds. */
  datatype Slot = Slot(box: nat, flow: Message)

  /** `got` is the flow the worker has taken off its channel and not yet dealt with. */
  datatype Worker = Worker(alpha: seq<Message>, got: Option<Message>, pool: seq<nat>, batch: seq<Slot>)

  datatype Settings = Settings(converts: Message -> bool, passes: Message -> bool, rate: int, min: int, serialize: bool)

  function Objects(batch: seq<Slot>): seq<nat> {
    seq(|batch|, i requires 0 <= i < |batch| => batch[i].box)
  }

  function Flows(batch: seq<Slot>): seq<Message> {
    seq(|batch|, i requires 0 <= i < |batch| => batch[i].flow)
  }

  // ---------------------------------------------------------------- sending a batch

  predicate Samples(s: Settings, n: nat) {
    s.serialize && s.rate > 1 && n > s.min
  }

  function Ordered(s: Settings, batch: seq<Slot>, swaps: seq<(nat, nat)>): seq<Slot> {
    if Samples(s, |batch|) then Swapped(batch, swaps) else batch
  }

  function Kept(s: Settings, n: nat): nat {
    if !s.serialize || n == 0 then 0 else KeepOf(n, s.rate, s.min)
  }

  /** The batch is sent and its objects go back to the pool. */
  function Flush(w: Worker, s: Settings, swaps: seq<(nat, nat)>): Worker {
    w.(pool := w.pool + Objects(Ordered(s, w.batch, swaps)), batch := [])
  }

  lemma KeptAtMost(s: Settings, n: nat)
    ensures Kept(s, n) <= n
  {
    if n > 0 {
      KeepBounds(n, s.rate, s.min);
    }
  }

  /** The flows of a batch that are serialized, and those that are not. */
  function Sent(s: Settings, batch: seq<Slot>, swaps: seq<(nat, nat)>): seq<Message> {
    KeptAtMost(s, |batch|);
    Flows(Ordered(s, batch, swaps))[..Kept(s, |batch|)]
  }

  function Unsent(s: Settings, batch: seq<Slot>, swaps: seq<(nat, nat)>): seq<Message> {
    KeptAtMost(s, |batch|);
    Flows(Ordered(s, batch, swaps))[Kept(s, |batch|)..]
  }

  /** What is handed on for a batch: the flows sent, with their sample rates raised if it was sampled. */
  function Serialized(s: Settings, batch: seq<Slot>, swaps: seq<(nat, nat)>): seq<Message> {
    if Samples(s, |batch|) then ScaledAll(Sent(s, batch, swaps), s.rate) else Sent(s, batch, swaps)
  }

  /** What is sent of a batch: as many as are kept, each at its place in the order and raised if the batch was sampled. */
  ghost predicate SentOf(s: Settings, flows: seq<Message>, order: seq<Message>, sent: seq<Message>) {
    && multiset(order) == multiset(flows) && |sent| <= |order| == |flows|
    && if !s.serialize then sent == []
       else if s.rate > 1 && |flows| > s.min then
         && (flows != [] ==> |sent| == if |flows| / s.rate > 1 then |flows| / s.rate else 1)
         && forall i :: 0 <= i < |sent| ==> IsRaised(sent[i], order[i], s.rate)
       else sent == order == flows
  }

  lemma SerializedIsSent(s: Settings, batch: seq<Slot>, swaps: seq<(nat, nat)>)
    ensures SentOf(s, Flows(batch), Flows(Ordered(s, batch, swaps)), Serialized(s, batch, swaps))
  {
    hide Scaled, IsRaised, Swapped;
    KeptAtMost(s, |batch|);
    OrderedKeeps(s, batch, swaps);
    if Samples(s, |batch|) {
      var sent := Sent(s, batch, swaps);
      forall i | 0 <= i < |sent| ensures IsRaised(Serialized(s, batch, swaps)[i], Flows(Ordered(s, batch, swaps))[i], s.rate) {
        ScaledIsRaised(sent[i], s.rate);
      }
    }
  }

  // ---------------------------------------------------------------- one company at a time

  function OfCompany(flows: seq<Message>, company: int): seq<Message> {
    if flows == [] then []
    else
      var last := flows[|flows| - 1];
      OfCompany(flows[..|flows| - 1], company) + if last.company == company then [last] else []
  }

  function Companies(flows: seq<Message>): set<int> {
    set f | f in flows :: f.company
  }

  /** What is serialized: one list of flows for each company, in the order of the batch. */
  function Splits(flows: seq<Message>): map<int, seq<Message>> {
    map c | c in Companies(flows) :: OfCompany(flows, c)
  }

  /** One list for each company, its flows in the order of the batch. */
  ghost predicate IsSplit(flows: seq<Message>, splits: map<int, seq<Message>>) {
    && (forall f :: f in flows ==> f.company in splits)
    && forall c :: c in splits ==> splits[c] != [] && IsFiltered(flows, (f: Message) => f.company == c, splits[c])
  }

  lemma {:induction false} OfCompanyIsFiltered(flows: seq<Message>, company: int)
    ensures IsFiltered(flows, (f: Message) => f.company == company, OfCompany(flows, company))
    ensures company in Companies(flows) ==> OfCompany(flows, company) != []
  {
    hide IsFiltered;
    var p := (f: Message) => f.company == company;
    if flows == [] {
      FilteredNone(p);
    } else {
      var before, last := flows[..|flows| - 1], flows[|flows| - 1];
      OfCompanyIsFiltered(before, company);
      FilteredStep(before, p, OfCompany(before, company), last);
      assert before + [last] == flows && OfCompany(before, company) + [] == OfCompany(before, company);
    }
  }

  lemma SplitsAreSplit(flows: seq<Message>)
    ensures IsSplit(flows, Splits(flows))
  {
    hide IsFiltered, OfCompany;
    forall c | c in Companies(flows) {
      OfCompanyIsFiltered(flows, c);
    }
  }

  /** Every flow is in the list of its own company as often as it was sent, and in no other list. */
  lemma {:induction false} EachInItsCompany(flows: seq<Message>, company: int, f: Message)
    ensures multiset(OfCompany(flows, company))[f] == if f.company == company then multiset(flows)[f] else 0
    ensures company !in Companies(flows) ==> OfCompany(flows, company) == []
  {
    if flows != [] {
      var before, last := flows[..|flows| - 1], flows[|flows| - 1];
      EachInItsCompany(before, company, f);
      assert flows == before + [last];
      assert last.company in Companies(flows) && Companies(before) <= Companies(flows);
    }
  }

  // ---------------------------------------------------------------- steps

  datatype Event =
    | Arrive(flow: Message)
    | Receive
    | Process(maxFlows: int, swaps: seq<(nat, nat)>)
    | Tick(swaps: seq<(nat, nat)>)

  datatype Fate = Errored | Filtered | Batched | Requeued | Dropped

  /** What becomes of the flow at hand; only with an empty pool does it go back to the channel, if that has room. */
  function FateOf(w: Worker, s: Settings, f: Message): Fate {
    if w.pool != [] then
      if !s.converts(f) then Errored else if !s.passes(f) then Filtered else Batched
    else if |w.alpha| < CHAN_SLACK then Requeued else Dropped
  }

  function Processed(w: Worker, s: Settings, maxFlows: int, swaps: seq<(nat, nat)>): Worker
    requires w.got.Some?
  {
    var f, v := w.got.value, w.(got := None);
    match FateOf(w, s, f)
    case Errored => v.(pool := w.pool[1..] + [w.pool[0]])
    case Filtered => v.(pool := w.pool[1..] + [w.pool[0]])
    case Batched =>
      var added := v.(pool := w.pool[1..], batch := w.batch + [Slot(w.pool[0], f)]);
      if |added.batch| >= maxFlows then Flush(added, s, swaps) else added
    case Requeued => Flush(v, s, swaps).(alpha := w.alpha + [f])
    case Dropped => Flush(v, s, swaps)
  }

  /** The batch a step sends, or nothing. */
  function Flushed(w: Worker, s: Settings, maxFlows: int): seq<Slot>
    requires w.got.Some?
  {
    match FateOf(w, s, w.got.value)
    case Batched =>
      var batch := w.batch + [Slot(w.pool[0], w.got.value)];
      if |batch| >= maxFlows then batch else []
    case Requeued => w.batch
    case Dropped => w.batch
    case _ => []
  }

  /** A run, with what it accepted from producers and what became of it. */
  datatype History = History(
    w: Worker, accepted: seq<Message>, refused: seq<Message>, errored: seq<Message>,
    filtered: seq<Message>, dropped: seq<Message>, sent: seq<Message>, unsent: seq<Message>)

  function Sending(h: History, s: Settings, batch: seq<Slot>, swaps: seq<(nat, nat)>): History {
    h.(sent := h.sent + Sent(s, batch, swaps), unsent := h.unsent + Unsent(s, batch, swaps))
  }

  function Noted(h: History, fate: Fate, f: Message): History {
    match fate
    case Errored => h.(errored := h.errored + [f])
    case Filtered => h.(filtered := h.filtered + [f])
    case Dropped => h.(dropped := h.dropped + [f])
    case _ => h
  }

  function Step(h: History, s: Settings, e: Event): History {
    match e
    case Arrive(f) =>
      if |h.w.alpha| < CHAN_SLACK then
        h.(w := h.w.(alpha := h.w.alpha + [f]), accepted := h.accepted + [f])
      else h.(refused := h.refused + [f])
    case Receive =>
      if h.w.got.Some? || h.w.alpha == [] then h
      else h.(w := h.w.(alpha := h.w.alpha[1..], got := Some(h.w.alpha[0])))
    case Process(maxFlows, swaps) =>
      if h.w.got.None? then h
      else
        var noted := Noted(h, FateOf(h.w, s, h.w.got.value), h.w.got.value);
        Sending(noted, s, Flushed(h.w, s, maxFlows), swaps).(w := Processed(h.w, s, maxFlows, swaps))
    case Tick(swaps) =>
      if h.w.got.Some? then h
      else Sending(h, s, h.w.batch, swaps).(w := Flush(h.w, s, swaps))
  }

  function Initial(objects: seq<nat>): History {
    History(Worker([], None, objects, []), [], [], [], [], [], [], [])
  }

  function Run(objects: seq<nat>, s: Settings, events: seq<Event>): History {
    if events == [] then Initial(objects)
    else Step(Run(objects, s, events[..|events| - 1]), s, events[|events| - 1])
  }

  // ---------------------------------------------------------------- the pool

  /** Every object is in the pool or in the batch, and none is in both or twice. */
  ghost predicate PoolKept(w: Worker, objects: seq<nat>) {
    multiset(w.pool) + multiset(Objects(w.batch)) == multiset(objects)
  }

  lemma {:induction false} SwappedSlots(batch: seq<Slot>, swaps: seq<(nat, nat)>)
    ensures Objects(Swapped(batch, swaps)) == Swapped(Objects(batch), swaps)
    ensures Flows(Swapped(batch, swaps)) == Swapped(Flows(batch), swaps)
  {
    if swaps != [] {
      hide Exchange;
      var n := |swaps| - 1;
      SwappedSlots(batch, swaps[..n]);
      ExchangedSlots(Swapped(batch, swaps[..n]), swaps[n].0, swaps[n].1);
    }
  }

  lemma ExchangedSlots(batch: seq<Slot>, i: nat, j: nat)
    ensures Objects(Exchange(batch, i, j)) == Exchange(Objects(batch), i, j)
    ensures Flows(Exchange(batch, i, j)) == Exchange(Flows(batch), i, j)
  {
  }

  lemma OrderedKeeps(s: Settings, batch: seq<Slot>, swaps: seq<(nat, nat)>)
    ensures multiset(Objects(Ordered(s, batch, swaps))) == multiset(Objects(batch))
    ensures multiset(Flows(Ordered(s, batch, swaps))) == multiset(Flows(batch))
  {
    SwappedSlots(batch, swaps);
  }

  lemma SentOrNot(s: Settings, batch: seq<Slot>, swaps: seq<(nat, nat)>, f: Message)
    ensures Count(Sent(s, batch, swaps), f) + Count(Unsent(s, batch, swaps), f) == Count(Flows(batch), f)
    ensures |Sent(s, batch, swaps)| == Kept(s, |batch|)
  {
    OrderedKeeps(s, batch, swaps);
    KeptAtMost(s, |batch|);
    var flows := Flows(Ordered(s, batch, swaps));
    assert flows == Sent(s, batch, swaps) + Unsent(s, batch, swaps);
  }

  lemma FlushKeepsPool(w: Worker, s: Settings, swaps: seq<(nat, nat)>, objects: seq<nat>)
    requires PoolKept(w, objects)
    ensures PoolKept(Flush(w, s, swaps), objects)
  {
    OrderedKeeps(s, w.batch, swaps);
  }

  lemma TakeKeepsPool(w: Worker, f: Message, objects: seq<nat>)
    requires PoolKept(w, objects) && w.pool != []
    ensures PoolKept(w.(pool := w.pool[1..] + [w.pool[0]]), objects)
    ensures PoolKept(w.(pool := w.pool[1..], batch := w.batch + [Slot(w.pool[0], f)]), objects)
  {
    assert w.pool == [w.pool[0]] + w.pool[1..];
    assert Objects(w.batch + [Slot(w.pool[0], f)]) == Objects(w.batch) + [w.pool[0]];
  }

  lemma ProcessKeepsPool(w: Worker, s: Settings, maxFlows: int, swaps: seq<(nat, nat)>, objects: seq<nat>)
    requires PoolKept(w, objects) && w.got.Some?
    ensures PoolKept(Processed(w, s, maxFlows, swaps), objects)
  {
    hide PoolKept, Flush;
    var f, v := w.got.value, w.(got := None);
    assert PoolKept(v, objects) by { SamePool(w, v, objects); }
    if w.pool != [] {
      TakeKeepsPool(v, f, objects);
      FlushKeepsPool(v.(pool := w.pool[1..], batch := w.batch + [Slot(w.pool[0], f)]), s, swaps, objects);
    } else {
      FlushKeepsPool(v, s, swaps, objects);
      var flushed := Flush(v, s, swaps);
      SamePool(flushed, flushed.(alpha := w.alpha + [f]), objects);
    }
  }

  lemma SamePool(w: Worker, v: Worker, objects: seq<nat>)
    requires PoolKept(w, objects) && v.pool == w.pool && v.batch == w.batch
    ensures PoolKept(v, objects)
  {
  }

  // ---------------------------------------------------------------- every run

  function Count(flows: seq<Message>, f: Message): nat {
    multiset(flows)[f]
  }

  lemma CountConcat(a: seq<Message>, b: seq<Message>, f: Message)
    ensures Count(a + b, f) == Count(a, f) + Count(b, f)
  {
  }

  lemma CountOne(g: Message, f: Message)
    ensures Count([g], f) == if g == f then 1 else 0
    ensures Count([], f) == 0
  {
  }

  function AtHand(w: Worker): seq<Message> {
    if w.got.Some? then [w.got.value] else []
  }

  function Held(w: Worker, f: Message): nat {
    Count(w.alpha, f) + Count(AtHand(w), f) + Count(Flows(w.batch), f)
  }

  function Done(h: History, f: Message): nat {
    Count(h.sent, f) + Count(h.unsent, f) + Count(h.errored, f) + Count(h.filtered, f) + Count(h.dropped, f)
  }

  lemma SendingDone(h: History, s: Settings, batch: seq<Slot>, swaps: seq<(nat, nat)>, f: Message)
    ensures Done(Sending(h, s, batch, swaps), f) == Done(h, f) + Count(Flows(batch), f)
  {
    hide Count, Sent, Unsent, Flows;
    CountConcat(h.sent, Sent(s, batch, swaps), f);
    CountConcat(h.unsent, Unsent(s, batch, swaps), f);
    SentOrNot(s, batch, swaps, f);
  }

  lemma NotedDone(h: History, fate: Fate, g: Message, f: Message)
    ensures Done(Noted(h, fate, g), f)
            == Done(h, f) + if fate.Errored? || fate.Filtered? || fate.Dropped? then Count([g], f) else 0
  {
    hide Count;
    CountConcat(h.errored, [g], f);
    CountConcat(h.filtered, [g], f);
    CountConcat(h.dropped, [g], f);
  }

  lemma ProcessHeld(w: Worker, s: Settings, maxFlows: int, swaps: seq<(nat, nat)>, f: Message)
    requires w.got.Some?
    ensures var fate := FateOf(w, s, w.got.value);
            Held(w, f) == Held(Processed(w, s, maxFlows, swaps), f) + Count(Flows(Flushed(w, s, maxFlows)), f)
                          + if fate.Errored? || fate.Filtered? || fate.Dropped? then Count([w.got.value], f) else 0
  {
    hide Count, Objects;
    CountOne(w.got.value, f);
    var g := w.got.value;
    match FateOf(w, s, g)
    case Batched =>
      FlowsStep(w.batch, Slot(w.pool[0], g));
      CountConcat(Flows(w.batch), [g], f);
      assert Flows([]) == [];
    case Requeued =>
      CountConcat(w.alpha, [g], f);
      assert Flows([]) == [];
    case _ =>
      assert Flows([]) == [];
  }

  lemma FlowsStep(batch: seq<Slot>, slot: Slot)
    ensures Flows(batch + [slot]) == Flows(batch) + [slot.flow]
  {
  }

  lemma StepAccounts(h: History, s: Settings, e: Event, f: Message)
    requires Count(h.accepted, f) == Held(h.w, f) + Done(h, f)
    ensures Count(Step(h, s, e).accepted, f) == Held(Step(h, s, e).w, f) + Done(Step(h, s, e), f)
  {
    hide Count, Sending, Noted, Processed, Flushed, Objects, Ordered;
    match e
    case Arrive(g) =>
      CountConcat(h.w.alpha, [g], f);
      CountConcat(h.accepted, [g], f);
    case Receive =>
      if h.w.alpha != [] {
        CountConcat([h.w.alpha[0]], h.w.alpha[1..], f);
        CountOne(h.w.alpha[0], f);
        assert h.w.alpha == [h.w.alpha[0]] + h.w.alpha[1..];
      }
    case Process(maxFlows, swaps) =>
      if h.w.got.Some? {
        var fate, g := FateOf(h.w, s, h.w.got.value), h.w.got.value;
        NotedDone(h, fate, g, f);
        SendingDone(Noted(h, fate, g), s, Flushed(h.w, s, maxFlows), swaps, f);
        ProcessHeld(h.w, s, maxFlows, swaps, f);
        NotesKeep(h, fate, g, s, Flushed(h.w, s, maxFlows), swaps);
      }
    case Tick(swaps) =>
      SendingDone(h, s, h.w.batch, swaps, f);
      CountOne(f, f);
      assert Flows([]) == [];
      NotesKeep(h, Batched, f, s, h.w.batch, swaps);
  }

  lemma NotesKeep(h: History, fate: Fate, g: Message, s: Settings, batch: seq<Slot>, swaps: seq<(nat, nat)>)
    ensures Sending(Noted(h, fate, g), s, batch, swaps).accepted == h.accepted
    ensures Sending(h, s, batch, swaps).accepted == h.accepted
  {
  }

  /**
   * Over every run, with flows arriving at any time, each accepted flow is waiting, at hand or in the batch, or has
   * been sent, left out of a sample, errored, filtered or dropped: exactly one of these, as often as it was accepted.
   */
  lemma {:induction false} RunAccounts(objects: seq<nat>, s: Settings, events: seq<Event>, f: Message)
    ensures var h := Run(objects, s, events);
            Count(h.accepted, f) == Held(h.w, f) + Done(h, f)
  {
    hide Count, Step, Held, Done;
    if events == [] {
      NothingYet(objects, f);
    } else {
      RunAccounts(objects, s, events[..|events| - 1], f);
      StepAccounts(Run(objects, s, events[..|events| - 1]), s, events[|events| - 1], f);
    }
  }

  lemma NothingYet(objects: seq<nat>, f: Message)
    ensures var h := Initial(objects);
            Count(h.accepted, f) == Held(h.w, f) + Done(h, f)
  {
  }

  lemma StepKeepsPool(h: History, s: Settings, e: Event, objects: seq<nat>)
    requires PoolKept(h.w, objects) && |h.w.alpha| <= CHAN_SLACK
    ensures PoolKept(Step(h, s, e).w, objects) && |Step(h, s, e).w.alpha| <= CHAN_SLACK
  {
    hide PoolKept, Processed, Flush, Sending, Noted, Flushed;
    match e
    case Process(maxFlows, swaps) =>
      if h.w.got.Some? {
        ProcessKeepsPool(h.w, s, maxFlows, swaps, objects);
        ProcessKeepsRoom(h.w, s, maxFlows, swaps);
      }
    case Tick(swaps) =>
      FlushKeepsPool(h.w, s, swaps, objects);
      FlushKeepsAlpha(h.w, s, swaps);
    case _ =>
      SamePool(h.w, Step(h, s, e).w, objects);
  }

  lemma {:induction false} RunKeepsPool(objects: seq<nat>, s: Settings, events: seq<Event>)
    ensures PoolKept(Run(objects, s, events).w, objects) && |Run(objects, s, events).w.alpha| <= CHAN_SLACK
  {
    hide PoolKept, Step;
    if events == [] {
      AllPooled(objects);
    } else {
      RunKeepsPool(objects, s, events[..|events| - 1]);
      StepKeepsPool(Run(objects, s, events[..|events| - 1]), s, events[|events| - 1], objects);
    }
  }

  /** What is in the batch, or was sent or left out of a sample, converts and passes; what was put aside does not. */
  ghost predicate FatesMeant(h: History, s: Settings, f: Message) {
    && (f in Flows(h.w.batch) || f in h.sent || f in h.unsent ==> s.converts(f) && s.passes(f))
    && (f in h.errored ==> !s.converts(f))
    && (f in h.filtered ==> s.converts(f) && !s.passes(f))
  }

  lemma SendingMeant(h: History, s: Settings, batch: seq<Slot>, swaps: seq<(nat, nat)>, f: Message)
    ensures var sent := Sending(h, s, batch, swaps);
            && (f in sent.sent || f in sent.unsent ==> f in h.sent || f in h.unsent || f in Flows(batch))
            && sent.errored == h.errored && sent.filtered == h.filtered
  {
    hide Sent, Unsent, Flows;
    SentOrNot(s, batch, swaps, f);
  }

  lemma StepMeant(h: History, s: Settings, e: Event, f: Message)
    requires FatesMeant(h, s, f)
    ensures FatesMeant(Step(h, s, e), s, f)
  {
    hide Sending, Sent, Unsent, Ordered, Objects;
    match e
    case Process(maxFlows, swaps) =>
      if h.w.got.Some? {
        var g := h.w.got.value;
        var noted := Noted(h, FateOf(h.w, s, g), g);
        SendingMeant(noted, s, Flushed(h.w, s, maxFlows), swaps, f);
        if h.w.pool != [] {
          FlowsStep(h.w.batch, Slot(h.w.pool[0], g));
        }
      }
    case Tick(swaps) =>
      SendingMeant(h, s, h.w.batch, swaps, f);
    case _ =>
  }

  /** Over every run a flow is sent, or left out by a sample, only if it converts and passes the filters. */
  lemma {:induction false} OnlyPassingAreSent(objects: seq<nat>, s: Settings, events: seq<Event>, f: Message)
    ensures FatesMeant(Run(objects, s, events), s, f)
  {
    hide FatesMeant, Step;
    if events == [] {
      NothingMeant(objects, s, f);
    } else {
      OnlyPassingAreSent(objects, s, events[..|events| - 1], f);
      StepMeant(Run(objects, s, events[..|events| - 1]), s, events[|events| - 1], f);
    }
  }

  lemma NothingMeant(objects: seq<nat>, s: Settings, f: Message)
    ensures FatesMeant(Initial(objects), s, f)
  {
  }

  lemma FlushKeepsAlpha(w: Worker, s: Settings, swaps: seq<(nat, nat)>)
    ensures Flush(w, s, swaps).alpha == w.alpha
  {
  }

  lemma AllPooled(objects: seq<nat>)
    ensures PoolKept(Worker([], None, objects, []), objects)
  {
  }

  lemma ProcessKeepsRoom(w: Worker, s: Settings, maxFlows: int, swaps: seq<(nat, nat)>)
    requires w.got.Some? && |w.alpha| <= CHAN_SLACK
    ensures |Processed(w, s, maxFlows, swaps).alpha| <= CHAN_SLACK
  {
  }

  /**
   * In every reachable state the pool channel has room for every object of the batch, and for the one in hand
   * while there is one, so no give-back blocks; and when the pool is empty all objects are in the batch, so
   * that sending it fills the pool again.
   */
  lemma GiveBackNeverBlocks(objects: seq<nat>, s: Settings, events: seq<Event>, swaps: seq<(nat, nat)>)
    requires |objects| == CHAN_SLACK
    ensures var w := Run(objects, s, events).w;
            && |w.pool| + |w.batch| == CHAN_SLACK
            && |Flush(w, s, swaps).pool| == CHAN_SLACK
            && (w.pool == [] ==> multiset(Flush(w, s, swaps).pool) == multiset(objects))
  {
    hide Run;
    RunKeepsPool(objects, s, events);
    var w := Run(objects, s, events).w;
    assert |multiset(w.pool)| + |multiset(Objects(w.batch))| == |multiset(objects)|;
    FlushKeepsPool(w, s, swaps, objects);
  }
}
