/**
 * The ring buffer as a value: a queue of slots, oldest first.
 *
 * GetAndDelete only drops the index entry of a key. The slot stays in the queue
 * as a tombstone that still holds the key, here a slot that is not `reachable`.
 * Evicting a slot drops the index entry of the key it holds, wherever that key
 * lives by then; that is why eviction looks at every slot.
 */
module RingModel {
  import opened Options

  datatype Slot<V> = Slot(key: string, value: V, reachable: bool)

  datatype Op<V> = Put(key: string, value: V) | Delete(key: string)

  ghost predicate NoNewer<V>(s: seq<Slot<V>>, i: nat)
    requires i < |s|
  {
    forall j :: i < j < |s| ==> s[j].key != s[i].key
  }

  /** Only the newest slot that holds a key can be reachable. */
  ghost predicate WellFormed<V>(s: seq<Slot<V>>) {
    forall i :: 0 <= i < |s| && s[i].reachable ==> NoNewer(s, i)
  }

  /** The index leads from `key` to the slot at position i. */
  predicate Leads<V>(s: seq<Slot<V>>, key: string, i: nat) {
    i < |s| && s[i].key == key && s[i].reachable
  }

  /** The position of the reachable slot of a key. */
  ghost function Find<V>(s: seq<Slot<V>>, key: string): Option<nat> {
    if i: nat :| Leads(s, key, i) then Some(i) else None
  }

  ghost function Lookup<V>(s: seq<Slot<V>>, key: string): Option<V> {
    match Find(s, key)
    case None => None
    case Some(i) => Some(s[i].value)
  }

  function Evict<V>(s: seq<Slot<V>>): (r: seq<Slot<V>>)
    requires s != []
    ensures |r| == |s| - 1
  {
    seq(|s| - 1, i requires 0 <= i < |s| - 1 =>
      if s[i + 1].key == s[0].key then s[i + 1].(reachable := false) else s[i + 1])
  }

  function Room<V>(s: seq<Slot<V>>, cap: nat): seq<Slot<V>>
    requires 1 <= cap
  {
    if |s| == cap then Evict(s) else s
  }

  ghost function PutSlot<V>(s: seq<Slot<V>>, cap: nat, key: string, value: V): seq<Slot<V>>
    requires 1 <= cap
  {
    match Find(s, key)
    case Some(i) => s[i := s[i].(value := value)]
    case None => Room(s, cap) + [Slot(key, value, true)]
  }

  ghost function DeleteKey<V>(s: seq<Slot<V>>, key: string): seq<Slot<V>> {
    match Find(s, key)
    case Some(i) => s[i := s[i].(reachable := false)]
    case None => s
  }

  ghost function Apply<V>(s: seq<Slot<V>>, cap: nat, op: Op<V>): seq<Slot<V>>
    requires 1 <= cap
  {
    match op
    case Put(k, v) => PutSlot(s, cap, k, v)
    case Delete(k) => DeleteKey(s, k)
  }

  ghost function Run<V>(s: seq<Slot<V>>, cap: nat, ops: seq<Op<V>>): seq<Slot<V>>
    requires 1 <= cap
  {
    if ops == [] then s
    else Apply(Run(s, cap, ops[..|ops| - 1]), cap, ops[|ops| - 1])
  }

  lemma FindIs<V>(s: seq<Slot<V>>, key: string, i: nat)
    requires WellFormed(s) && Leads(s, key, i)
    ensures Find(s, key) == Some(i)
  {
    var j := Find(s, key).value;
    assert Leads(s, key, j) && NoNewer(s, i) && NoNewer(s, j);
  }

  lemma EvictKeepsWellFormed<V>(s: seq<Slot<V>>)
    requires WellFormed(s) && s != []
    ensures WellFormed(Evict(s))
  {
    var t := Evict(s);
    forall i | 0 <= i < |t| && t[i].reachable ensures NoNewer(t, i) {
      assert NoNewer(s, i + 1);
    }
  }

  lemma AppendKeepsWellFormed<V>(s: seq<Slot<V>>, e: Slot<V>)
    requires WellFormed(s) && Find(s, e.key).None?
    ensures WellFormed(s + [e])
  {
    var t := s + [e];
    forall i | 0 <= i < |t| && t[i].reachable ensures NoNewer(t, i) {
      if i < |s| {
        assert NoNewer(s, i) && Leads(s, s[i].key, i);
      }
    }
  }

  lemma ChangeKeepsWellFormed<V>(s: seq<Slot<V>>, i: nat, e: Slot<V>)
    requires WellFormed(s) && i < |s| && e.key == s[i].key && (e.reachable ==> s[i].reachable)
    ensures WellFormed(s[i := e])
  {
    var t := s[i := e];
    forall j | 0 <= j < |t| && t[j].reachable ensures NoNewer(t, j) {
      assert NoNewer(s, j);
    }
  }

  lemma FindAfterEvict<V>(s: seq<Slot<V>>, key: string)
    requires WellFormed(s) && s != []
    ensures Find(Evict(s), key)
            == if key == s[0].key || Find(s, key).None? then None else Some(Find(s, key).value - 1)
  {
    var t := Evict(s);
    if Find(t, key).Some? {
      assert Leads(s, key, Find(t, key).value + 1);
      FindIs(s, key, Find(t, key).value + 1);
    } else if Find(s, key).Some? && key != s[0].key {
      assert Leads(t, key, Find(s, key).value - 1);
    }
  }

  lemma FindAfterAppend<V>(s: seq<Slot<V>>, e: Slot<V>, key: string)
    requires WellFormed(s) && Find(s, e.key).None? && e.reachable
    ensures Find(s + [e], key) == if key == e.key then Some(|s|) else Find(s, key)
  {
    var t := s + [e];
    AppendKeepsWellFormed(s, e);
    if key == e.key {
      FindIs(t, key, |s|);
    } else if Find(s, key).Some? {
      FindIs(t, key, Find(s, key).value);
    } else if Find(t, key).Some? {
      assert Leads(s, key, Find(t, key).value);
    }
  }

  lemma FindAfterChange<V>(s: seq<Slot<V>>, i: nat, e: Slot<V>, key: string)
    requires WellFormed(s) && i < |s| && s[i].reachable && e.key == s[i].key
    ensures Find(s[i := e], key) == if key == e.key && !e.reachable then None else Find(s, key)
  {
    var t := s[i := e];
    ChangeKeepsWellFormed(s, i, e);
    FindIs(s, e.key, i);
    if Find(t, key).Some? {
      FindIs(s, key, Find(t, key).value);
    } else if Find(s, key).Some? {
      assert (key == e.key && !e.reachable) || Leads(t, key, Find(s, key).value);
    }
  }

  /** Both operations keep the queue well formed and within its capacity. */
  lemma ApplyKeepsWellFormed<V>(s: seq<Slot<V>>, cap: nat, op: Op<V>)
    requires 1 <= cap && WellFormed(s) && |s| <= cap
    ensures WellFormed(Apply(s, cap, op)) && |Apply(s, cap, op)| <= cap
  {
    hide WellFormed;
    if Find(s, op.key).Some? {
      var i := Find(s, op.key).value;
      assert Leads(s, op.key, i);
      ChangeKeepsWellFormed(s, i, if op.Put? then s[i].(value := op.value) else s[i].(reachable := false));
    } else if op.Put? {
      if |s| == cap {
        EvictKeepsWellFormed(s);
        FindAfterEvict(s, op.key);
      }
      AppendKeepsWellFormed(Room(s, cap), Slot(op.key, op.value, true));
    }
  }

  lemma {:induction false} RunKeepsWellFormed<V>(s: seq<Slot<V>>, cap: nat, ops: seq<Op<V>>)
    requires 1 <= cap && WellFormed(s) && |s| <= cap
    ensures WellFormed(Run(s, cap, ops)) && |Run(s, cap, ops)| <= cap
  {
    hide WellFormed, Apply;
    if ops != [] {
      RunKeepsWellFormed(s, cap, ops[..|ops| - 1]);
      ApplyKeepsWellFormed(Run(s, cap, ops[..|ops| - 1]), cap, ops[|ops| - 1]);
    }
  }

  /** A Put takes a new slot exactly when its key is not reachable. */
  ghost predicate IsAppend<V>(s: seq<Slot<V>>, op: Op<V>) {
    op.Put? && Find(s, op.key).None?
  }

  /** Where every key is after one operation. */
  lemma FindAfterApply<V>(s: seq<Slot<V>>, cap: nat, op: Op<V>, key: string)
    requires 1 <= cap && WellFormed(s) && |s| <= cap
    ensures var t := Apply(s, cap, op);
            Find(t, key)
            == if IsAppend(s, op) && key == op.key then Some(|t| - 1)
               else if IsAppend(s, op) && |s| == cap then
                 (if key == s[0].key || Find(s, key).None? then None else Some(Find(s, key).value - 1))
               else if op == Delete(key) then None
               else Find(s, key)
  {
    hide WellFormed;
    if Find(s, op.key).Some? {
      var i := Find(s, op.key).value;
      assert Leads(s, op.key, i);
      FindAfterChange(s, i, if op.Put? then s[i].(value := op.value) else s[i].(reachable := false), key);
    } else if op.Put? {
      if |s| == cap {
        EvictKeepsWellFormed(s);
        FindAfterEvict(s, op.key);
        FindAfterEvict(s, key);
      }
      FindAfterAppend(Room(s, cap), Slot(op.key, op.value, true), key);
    }
  }

  // ---------------------------------------------------------------- what a hit returns

  /** What the operations on a key say it should hold: the last Put, unless a Delete came later. */
  function LastWritten<V>(ops: seq<Op<V>>, key: string): Option<V> {
    if ops == [] then None
    else
      var last := ops[|ops| - 1];
      if last.key == key then (if last.Put? then Some(last.value) else None)
      else LastWritten(ops[..|ops| - 1], key)
  }

  /** What one operation does to what a key holds. */
  lemma LookupAfterApply<V>(s: seq<Slot<V>>, cap: nat, op: Op<V>, key: string)
    requires 1 <= cap && WellFormed(s) && |s| <= cap
    ensures op.key == key ==> Lookup(Apply(s, cap, op), key) == if op.Put? then Some(op.value) else None
    ensures op.key != key ==> Lookup(Apply(s, cap, op), key) in {None, Lookup(s, key)}
  {
    hide WellFormed, Find;
    FindAfterApply(s, cap, op, key);
    FindLeads(s, key);
    FindLeads(s, op.key);
  }

  lemma FindLeads<V>(s: seq<Slot<V>>, key: string)
    ensures Find(s, key).Some? ==> Leads(s, key, Find(s, key).value)
  {
  }

  /** In every run, a hit returns the value last Put for the key, and never a deleted one. */
  lemma {:induction false} HitReturnsLastPut<V>(cap: nat, ops: seq<Op<V>>, key: string)
    requires 1 <= cap
    ensures Lookup(Run([], cap, ops), key).Some? ==>
              Lookup(Run([], cap, ops), key) == LastWritten(ops, key)
  {
    hide WellFormed, Apply, Lookup;
    if ops == [] {
      EmptyHoldsNothing<V>(key);
    } else {
      var before := ops[..|ops| - 1];
      HitReturnsLastPut(cap, before, key);
      EmptyHoldsNothing<V>(key);
      RunKeepsWellFormed<V>([], cap, before);
      LookupAfterApply(Run([], cap, before), cap, ops[|ops| - 1], key);
    }
  }

  lemma EmptyHoldsNothing<V>(key: string)
    ensures WellFormed<V>([]) && Lookup<V>([], key).None?
  {
  }

  // ---------------------------------------------------------------- how long a key lives

  /** Position i is the oldest slot that holds `key`, tombstone or not. */
  ghost predicate OldestOf<V>(s: seq<Slot<V>>, key: string, i: nat) {
    i < |s| && s[i].key == key && forall j :: 0 <= j < i ==> s[j].key != key
  }

  ghost function Holder<V>(s: seq<Slot<V>>, key: string): Option<nat> {
    if i: nat :| OldestOf(s, key, i) then Some(i) else None
  }

  lemma HolderIs<V>(s: seq<Slot<V>>, key: string, i: nat)
    requires OldestOf(s, key, i)
    ensures Holder(s, key) == Some(i)
  {
  }

  lemma {:induction false} SomeOldest<V>(s: seq<Slot<V>>, key: string, i: nat)
    requires i < |s| && s[i].key == key
    ensures Holder(s, key).Some?
    decreases i
  {
    if j: nat :| j < i && s[j].key == key {
      SomeOldest(s, key, j);
    } else {
      assert OldestOf(s, key, i);
    }
  }

  ghost function Appends<V>(s: seq<Slot<V>>, cap: nat, ops: seq<Op<V>>): nat
    requires 1 <= cap
  {
    if ops == [] then 0
    else
      var before := ops[..|ops| - 1];
      Appends(s, cap, before) + if IsAppend(Run(s, cap, before), ops[|ops| - 1]) then 1 else 0
  }

  /** How many fresh appends a reachable key survives: the free slots and the slots older than its oldest one. */
  ghost function Lifetime<V>(s: seq<Slot<V>>, cap: nat, key: string): int
    requires Holder(s, key).Some?
  {
    cap - |s| + Holder(s, key).value
  }

  /** An operation moves every slot forward, or leaves every slot where it is. */
  lemma KeysAfterApply<V>(s: seq<Slot<V>>, cap: nat, op: Op<V>)
    requires 1 <= cap && |s| <= cap
    ensures var t, d := Apply(s, cap, op), if IsAppend(s, op) && |s| == cap then 1 else 0;
            && |t| == (if IsAppend(s, op) then |s| + 1 else |s|) - d
            && forall i :: 0 <= i < |s| - d ==> t[i].key == s[i + d].key
  {
    if Find(s, op.key).Some? {
      assert Leads(s, op.key, Find(s, op.key).value);
    }
  }

  lemma HolderAfterApply<V>(s: seq<Slot<V>>, cap: nat, op: Op<V>, key: string)
    requires 1 <= cap && |s| <= cap && Holder(s, key).Some?
    requires IsAppend(s, op) && |s| == cap ==> s[0].key != key
    ensures Holder(Apply(s, cap, op), key)
            == Some(Holder(s, key).value - if IsAppend(s, op) && |s| == cap then 1 else 0)
  {
    hide Apply;
    var t, d := Apply(s, cap, op), if IsAppend(s, op) && |s| == cap then 1 else 0;
    KeysAfterApply(s, cap, op);
    var p := Holder(s, key).value;
    assert OldestOf(s, key, p);
    forall j | 0 <= j < p - d ensures t[j].key != key {
      assert t[j].key == s[j + d].key;
    }
    assert t[p - d].key == s[p].key;
    HolderIs(t, key, p - d);
  }

  /** One operation other than a Delete of `key`, on a queue where `key` is reachable. */
  lemma StepLifetime<V>(s: seq<Slot<V>>, cap: nat, op: Op<V>, key: string)
    requires 1 <= cap && WellFormed(s) && |s| <= cap
    requires Find(s, key).Some? && Holder(s, key).Some?
    requires op != Delete(key)
    ensures Find(Apply(s, cap, op), key).Some? <==> !IsAppend(s, op) || Lifetime(s, cap, key) > 0
    ensures Find(Apply(s, cap, op), key).Some? ==>
              && Holder(Apply(s, cap, op), key).Some?
              && Lifetime(Apply(s, cap, op), cap, key)
                 == Lifetime(s, cap, key) - if IsAppend(s, op) then 1 else 0
  {
    hide Apply, Find, WellFormed, OldestOf;
    FindAfterApply(s, cap, op, key);
    KeysAfterApply(s, cap, op);
    if IsAppend(s, op) && |s| == cap && s[0].key == key {
      assert OldestOf(s, key, 0) by { OldestAtFront(s, key); }
      HolderIs(s, key, 0);
    } else {
      assert IsAppend(s, op) && |s| == cap ==> Holder(s, key).value > 0 by { HolderHolds(s, key); }
      HolderAfterApply(s, cap, op, key);
    }
  }

  lemma OldestAtFront<V>(s: seq<Slot<V>>, key: string)
    requires s != [] && s[0].key == key
    ensures OldestOf(s, key, 0)
  {
  }

  lemma HolderHolds<V>(s: seq<Slot<V>>, key: string)
    requires Holder(s, key).Some?
    ensures Holder(s, key).value < |s| && s[Holder(s, key).value].key == key
  {
  }

  /**
   * A reachable key stays findable through any operations that do not delete it
   * exactly as long as the fresh appends among them stay within its lifetime.
   */
  lemma {:induction false} KeyLivesItsLifetime<V>(s: seq<Slot<V>>, cap: nat, ops: seq<Op<V>>, key: string)
    requires 1 <= cap && WellFormed(s) && |s| <= cap
    requires Find(s, key).Some? && Holder(s, key).Some?
    requires Delete(key) !in ops
    requires Appends(s, cap, ops) <= Lifetime(s, cap, key) + 1
    ensures Find(Run(s, cap, ops), key).Some? <==> Appends(s, cap, ops) <= Lifetime(s, cap, key)
    ensures Find(Run(s, cap, ops), key).Some? ==>
              && Holder(Run(s, cap, ops), key).Some?
              && Lifetime(Run(s, cap, ops), cap, key) == Lifetime(s, cap, key) - Appends(s, cap, ops)
  {
    hide Apply, Find, Holder, WellFormed;
    if ops == [] {
      assert Lifetime(s, cap, key) >= 0 by { HolderHolds(s, key); }
    } else {
      var before, op := ops[..|ops| - 1], ops[|ops| - 1];
      var t := Run(s, cap, before);
      KeyLivesItsLifetime(s, cap, before, key);
      RunKeepsWellFormed(s, cap, before);
      if Find(t, key).Some? {
        StepLifetime(t, cap, op, key);
        assert Lifetime(t, cap, key) >= 0 by { HolderHolds(t, key); }
      } else {
        FindAfterApply(t, cap, op, key);
      }
    }
  }

  /** A key put when no slot holds it lives for exactly `cap - 1` further fresh appends. */
  lemma FreshKeyLivesCapacity<V>(s: seq<Slot<V>>, cap: nat, key: string, value: V, ops: seq<Op<V>>)
    requires 1 <= cap && WellFormed(s) && |s| <= cap
    requires forall i :: 0 <= i < |s| ==> s[i].key != key
    requires Delete(key) !in ops
    requires Appends(PutSlot(s, cap, key, value), cap, ops) <= cap
    ensures Find(Run(PutSlot(s, cap, key, value), cap, ops), key).Some?
            <==> Appends(PutSlot(s, cap, key, value), cap, ops) < cap
  {
    var op := Put(key, value);
    var t := Apply(s, cap, op);
    assert IsAppend(s, op);
    ApplyKeepsWellFormed(s, cap, op);
    FindAfterApply(s, cap, op, key);
    KeysAfterApply(s, cap, op);
    HolderIs(t, key, |t| - 1) by {
      assert t[|t| - 1].key == key;
    }
    KeyLivesItsLifetime(t, cap, ops, key);
  }

  // ---------------------------------------------------------------- the queue it is meant to be

  /** The buffer as documented: a full buffer gives up its oldest entry and nothing else. */
  ghost function MeantApply<V>(s: seq<Slot<V>>, cap: nat, op: Op<V>): seq<Slot<V>>
    requires 1 <= cap
  {
    if IsAppend(s, op) then (if |s| == cap then s[1..] else s) + [Slot(op.key, op.value, true)]
    else Apply(s, cap, op)
  }

  ghost function MeantRun<V>(s: seq<Slot<V>>, cap: nat, ops: seq<Op<V>>): seq<Slot<V>>
    requires 1 <= cap
  {
    if ops == [] then s
    else MeantApply(MeantRun(s, cap, ops[..|ops| - 1]), cap, ops[|ops| - 1])
  }

  /** The Put that goes wrong: it evicts a tombstone whose key has been put again. */
  ghost predicate LosesAnotherKey<V>(s: seq<Slot<V>>, cap: nat, op: Op<V>)
    requires 1 <= cap
  {
    && IsAppend(s, op) && |s| == cap
    && !s[0].reachable && Find(s, s[0].key).Some?
  }

  lemma KeyIsNotElsewhere<V>(s: seq<Slot<V>>, j: nat)
    requires WellFormed(s) && 0 < j < |s| && (s[0].reachable || Find(s, s[0].key).None?)
    ensures s[j].key == s[0].key ==> !s[j].reachable
  {
    var key := s[0].key;
    assert s[0].reachable ==> NoNewer(s, 0);
    assert Leads(s, key, j) ==> Find(s, key).Some?;
  }

  lemma StepAsMeantIff<V>(s: seq<Slot<V>>, cap: nat, op: Op<V>)
    requires 1 <= cap && WellFormed(s) && |s| <= cap
    ensures Apply(s, cap, op) == MeantApply(s, cap, op) <==> !LosesAnotherKey(s, cap, op)
  {
    if IsAppend(s, op) && |s| == cap {
      var e := Slot(op.key, op.value, true);
      assert Apply(s, cap, op) == Evict(s) + [e];
      assert MeantApply(s, cap, op) == s[1..] + [e];
      if LosesAnotherKey(s, cap, op) {
        var i := Find(s, s[0].key).value;
        assert Leads(s, s[0].key, i);
        assert (s[1..] + [e])[i - 1].reachable && !(Evict(s) + [e])[i - 1].reachable;
      } else {
        forall j | 0 <= j < |s| - 1 ensures Evict(s)[j] == s[1..][j] {
          KeyIsNotElsewhere(s, j + 1);
        }
        assert Evict(s) == s[1..];
      }
    }
  }

  /** What a losing Put takes besides the slot it evicts: exactly the evicted slot's key. */
  lemma LosingPutLosesOneKey<V>(s: seq<Slot<V>>, cap: nat, op: Op<V>, key: string)
    requires 1 <= cap && WellFormed(s) && |s| <= cap
    requires IsAppend(s, op)
    requires Find(s, key).Some? && Find(s, key).value > 0
    ensures Find(Apply(s, cap, op), key).None? <==> LosesAnotherKey(s, cap, op) && key == s[0].key
  {
    hide WellFormed, Apply;
    FindAfterApply(s, cap, op, key);
    var i := Find(s, key).value;
    assert Leads(s, key, i);
    if s[0].reachable && s[0].key == key {
      FindIs(s, key, 0);
    }
  }

  ghost predicate AsMeantAfter<V>(cap: nat, ops: seq<Op<V>>, n: nat)
    requires 1 <= cap && n <= |ops|
  {
    Run([], cap, ops[..n]) == MeantRun([], cap, ops[..n])
  }

  ghost predicate LosesAt<V>(cap: nat, ops: seq<Op<V>>, n: nat)
    requires 1 <= cap && n < |ops|
  {
    LosesAnotherKey(Run([], cap, ops[..n]), cap, ops[n])
  }

  lemma NextAsMeantIff<V>(cap: nat, ops: seq<Op<V>>, n: nat)
    requires 1 <= cap && n < |ops| && AsMeantAfter(cap, ops, n)
    ensures AsMeantAfter(cap, ops, n + 1) <==> !LosesAt(cap, ops, n)
  {
    hide Apply, MeantApply, LosesAnotherKey, WellFormed;
    assert ops[..n + 1][..n] == ops[..n];
    EmptyHoldsNothing<V>("");
    RunKeepsWellFormed<V>([], cap, ops[..n]);
    StepAsMeantIff(Run([], cap, ops[..n]), cap, ops[n]);
  }

  /** A run does what is documented after each of its operations exactly when no Put in it loses another key. */
  lemma {:induction false} RunAsMeantIff<V>(cap: nat, ops: seq<Op<V>>)
    requires 1 <= cap
    ensures (forall n :: 0 <= n <= |ops| ==> AsMeantAfter(cap, ops, n))
            <==> (forall n :: 0 <= n < |ops| ==> !LosesAt(cap, ops, n))
  {
    assert AsMeantAfter(cap, ops, 0);
    hide AsMeantAfter, LosesAt;
    forall n: nat | n < |ops| && AsMeantAfter(cap, ops, n)
      ensures AsMeantAfter(cap, ops, n + 1) <==> !LosesAt(cap, ops, n)
    {
      NextAsMeantIff(cap, ops, n);
    }
    if n: nat :| n < |ops| && LosesAt(cap, ops, n) {
      assert AsMeantAfter(cap, ops, n) ==> !AsMeantAfter(cap, ops, n + 1);
    } else {
      for n := 0 to |ops|
        invariant forall m :: 0 <= m <= n ==> AsMeantAfter(cap, ops, m)
      {
        assert !LosesAt(cap, ops, n);
      }
    }
  }

  /** Put a, delete it, put it again, and let the first slot be evicted: a is gone from a half empty buffer. */
  lemma TombstoneTakesLiveKey()
    ensures var s := [Slot("a", 1, false), Slot("a", 2, true)];
            && Run([], 2, [Put("a", 1), Delete("a"), Put("a", 2)]) == s
            && LosesAnotherKey(s, 2, Put("b", 3))
            && Lookup(Apply(s, 2, Put("b", 3)), "a") == None
            && Lookup(MeantApply(s, 2, Put("b", 3)), "a") == Some(2)
  {
    var ops: seq<Op<int>> := [Put("a", 1), Delete("a"), Put("a", 2)];
    var s1, s2, s := [Slot("a", 1, true)], [Slot("a", 1, false)], [Slot("a", 1, false), Slot("a", 2, true)];
    assert Run([], 2, ops) == s by {
      assert ops[..2][..1][..0] == [] && ops[..2][..1] == [Put("a", 1)] && ops[..2] == [Put("a", 1), Delete("a")];
      assert Run([], 2, ops[..2][..1]) == s1;
      assert Leads(s1, "a", 0);
      FindIs(s1, "a", 0);
      assert Run([], 2, ops[..2]) == s2;
    }
    FindIs(s, "a", 1);
    FindAfterApply(s, 2, Put("b", 3), "a");
    var m := MeantApply(s, 2, Put("b", 3));
    assert m == [Slot("a", 2, true), Slot("b", 3, true)];
    FindIs(m, "a", 0);
  }

  // ---------------------------------------------------------------- without deletes

  /** A map bounded to `cap` keys that remembers insertion order and drops the oldest key. */
  datatype Pair<V> = Pair(key: string, value: V)

  ghost function PutPair<V>(m: seq<Pair<V>>, cap: nat, key: string, value: V): seq<Pair<V>>
    requires 1 <= cap
  {
    if i :| 0 <= i < |m| && m[i].key == key then m[i := Pair(key, value)]
    else (if |m| == cap then m[1..] else m) + [Pair(key, value)]
  }

  ghost function PutPairs<V>(cap: nat, puts: seq<Pair<V>>): seq<Pair<V>>
    requires 1 <= cap
  {
    if puts == [] then []
    else
      var last := puts[|puts| - 1];
      PutPair(PutPairs(cap, puts[..|puts| - 1]), cap, last.key, last.value)
  }

  function AllPuts<V>(puts: seq<Pair<V>>): seq<Op<V>> {
    seq(|puts|, i requires 0 <= i < |puts| => Put(puts[i].key, puts[i].value))
  }

  function AllReachable<V>(m: seq<Pair<V>>): seq<Slot<V>> {
    seq(|m|, i requires 0 <= i < |m| => Slot(m[i].key, m[i].value, true))
  }

  ghost predicate Distinct<V>(m: seq<Pair<V>>) {
    forall i, j :: 0 <= i < j < |m| ==> m[i].key != m[j].key
  }

  lemma UpdateAsPair<V>(m: seq<Pair<V>>, cap: nat, key: string, value: V, i: nat)
    requires 1 <= cap && Distinct(m) && i < |m| && m[i].key == key
    ensures PutSlot(AllReachable(m), cap, key, value) == AllReachable(m[i := Pair(key, value)])
    ensures PutPair(m, cap, key, value) == m[i := Pair(key, value)]
  {
    var s := AllReachable(m);
    assert Leads(s, key, i);
    assert forall j: nat :: Leads(s, key, j) ==> j == i;
  }

  lemma AppendAsPair<V>(m: seq<Pair<V>>, cap: nat, key: string, value: V)
    requires 1 <= cap && |m| <= cap && Distinct(m) && forall i :: 0 <= i < |m| ==> m[i].key != key
    ensures PutSlot(AllReachable(m), cap, key, value) == AllReachable(PutPair(m, cap, key, value))
  {
    var s := AllReachable(m);
    assert forall j: nat :: Leads(s, key, j) ==> m[j].key == key;
    assert Find(s, key).None?;
    assert m != [] ==> Evict(s) == AllReachable(m[1..]);
  }

  lemma PutAsPair<V>(m: seq<Pair<V>>, cap: nat, key: string, value: V)
    requires 1 <= cap && |m| <= cap && Distinct(m)
    ensures PutSlot(AllReachable(m), cap, key, value) == AllReachable(PutPair(m, cap, key, value))
    ensures |PutPair(m, cap, key, value)| <= cap && Distinct(PutPair(m, cap, key, value))
  {
    hide PutSlot, AllReachable;
    if i: nat :| i < |m| && m[i].key == key {
      UpdateAsPair(m, cap, key, value, i);
    } else {
      AppendAsPair(m, cap, key, value);
    }
  }

  /** With no delete in the run, the buffer is a map bounded to `cap` distinct keys in insertion order. */
  lemma {:induction false} PutsAreBoundedOrderedMap<V>(cap: nat, puts: seq<Pair<V>>)
    requires 1 <= cap
    ensures Run([], cap, AllPuts(puts)) == AllReachable(PutPairs(cap, puts))
    ensures |PutPairs(cap, puts)| <= cap && Distinct(PutPairs(cap, puts))
  {
    hide PutSlot, PutPair;
    if puts != [] {
      var before, last := puts[..|puts| - 1], puts[|puts| - 1];
      PutsAreBoundedOrderedMap(cap, before);
      assert AllPuts(puts)[..|puts| - 1] == AllPuts(before);
      PutAsPair(PutPairs(cap, before), cap, last.key, last.value);
    }
  }
}
