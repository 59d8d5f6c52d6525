/**
 * Purging devices that have not been seen for long enough: one number of missed polls is carried through
 * the devices, in whatever order the map gives them.
 */
module PurgeModel {
  import opened Options
  import opened Sequences

  datatype Device = Device(name: string, ip: string, engineId: string, checked: int, purge: int)

  /** The configured number of polls, the time between two of them, the buffer, and now. */
  datatype Purge = Purge(global: int, poll: int, now: int)

  const REMOVE_TIME_BUFFER := -15 * 60 * 1_000_000_000

  datatype Verdict = Keep | Remove | Invalid

  /** What a number of missed polls says of a device. */
  function VerdictOf(s: Purge, d: Device, removeNum: int): Verdict {
    if removeNum == -1 then Keep
    else if removeNum < -1 then Invalid
    else if removeNum > 0 && s.poll > 0 && d.checked < s.now - removeNum * s.poll + REMOVE_TIME_BUFFER then Remove
    else Keep
  }

  /** The devices left so far, the number carried on, and whether it was found invalid. */
  datatype State = State(devices: map<string, Device>, removeNum: int, invalid: bool)

  function Visit(s: Purge, st: State, k: string): State {
    if st.invalid || k !in st.devices then st
    else
      var d := st.devices[k];
      var removeNum := if d.purge != 0 then d.purge else st.removeNum;
      match VerdictOf(s, d, removeNum)
      case Keep => st.(removeNum := removeNum)
      case Remove => State(st.devices - {k}, removeNum, false)
      case Invalid => State(st.devices, removeNum, true)
  }

  function VisitAll(s: Purge, devices: map<string, Device>, order: seq<string>): State {
    if order == [] then State(devices, s.global, false)
    else Visit(s, VisitAll(s, devices, order[..|order| - 1]), order[|order| - 1])
  }

  /** The devices left, or none for an error. */
  function Outcome(st: State): Option<map<string, Device>> {
    if st.invalid then None else Some(st.devices)
  }

  // ---------------------------------------------------------------- what is configured

  /** A device's own number goes before the global one. */
  function Own(s: Purge, d: Device): int {
    if d.purge != 0 then d.purge else s.global
  }

  ghost predicate AnyInvalid(s: Purge, devices: map<string, Device>) {
    exists k :: k in devices && VerdictOf(s, devices[k], Own(s, devices[k])).Invalid?
  }

  ghost function Configured(s: Purge, devices: map<string, Device>): Option<map<string, Device>> {
    if AnyInvalid(s, devices) then None
    else Some(map k | k in devices && VerdictOf(s, devices[k], Own(s, devices[k])).Keep? :: devices[k])
  }

  /** A device without a number of its own would fare differently with the number of another one. */
  ghost predicate Affects(s: Purge, devices: map<string, Device>, o: string, d: string) {
    && o in devices && d in devices && devices[o].purge != 0 && devices[d].purge == 0
    && VerdictOf(s, devices[d], devices[o].purge) != VerdictOf(s, devices[d], s.global)
  }

  ghost predicate InvalidOwn(devices: map<string, Device>, k: string) {
    k in devices && devices[k].purge < -1
  }

  // ---------------------------------------------------------------- orders that agree with it

  /** The number carried on is the global one or one of a device's own. */
  ghost predicate FromSome(s: Purge, devices: map<string, Device>, n: int) {
    n == s.global || exists o :: o in devices && devices[o].purge != 0 && devices[o].purge == n
  }

  /** After some devices of an order, without any effect of one device on another. */
  ghost predicate AsConfigured(s: Purge, devices: map<string, Device>, order: seq<string>, st: State) {
    && FromSome(s, devices, st.removeNum)
    && if st.invalid then AnyInvalid(s, devices)
       else
         && (forall k :: k in order && k in devices ==> !VerdictOf(s, devices[k], Own(s, devices[k])).Invalid?)
         && (forall k :: k in st.devices <==> k in devices && (k in order ==> VerdictOf(s, devices[k], Own(s, devices[k])).Keep?))
         && (forall k :: k in st.devices ==> st.devices[k] == devices[k])
  }

  lemma SameVerdict(s: Purge, devices: map<string, Device>, n: int, k: string)
    requires FromSome(s, devices, n) && k in devices && forall o, d :: !Affects(s, devices, o, d)
    ensures var d := devices[k];
            VerdictOf(s, d, if d.purge != 0 then d.purge else n) == VerdictOf(s, d, Own(s, d))
    ensures FromSome(s, devices, if devices[k].purge != 0 then devices[k].purge else n)
  {
    hide VerdictOf;
    if devices[k].purge == 0 && n != s.global {
      var o :| o in devices && devices[o].purge != 0 && devices[o].purge == n;
      assert !Affects(s, devices, o, k);
    }
  }

  lemma VisitAsConfigured(s: Purge, devices: map<string, Device>, order: seq<string>, st: State, k: string)
    requires AsConfigured(s, devices, order, st) && k in devices && k !in order
    requires forall o, d :: !Affects(s, devices, o, d)
    ensures AsConfigured(s, devices, order + [k], Visit(s, st, k))
  {
    hide VerdictOf, FromSome, Affects, Own;
    SameVerdict(s, devices, st.removeNum, k);
  }

  lemma {:induction false} VisitsAsConfigured(s: Purge, devices: map<string, Device>, order: seq<string>)
    requires forall i :: 0 <= i < |order| ==> order[i] in devices
    requires forall i, j :: 0 <= i < j < |order| ==> order[i] != order[j]
    requires forall o, d :: !Affects(s, devices, o, d)
    ensures AsConfigured(s, devices, order, VisitAll(s, devices, order))
  {
    if order != [] {
      hide Visit, AsConfigured, Affects;
      var n := |order| - 1;
      assert order == order[..n] + [order[n]];
      VisitsAsConfigured(s, devices, order[..n]);
      VisitAsConfigured(s, devices, order[..n], VisitAll(s, devices, order[..n]), order[n]);
    }
  }

  lemma AllAsConfigured(s: Purge, devices: map<string, Device>, order: seq<string>)
    requires Lists(order, devices.Keys) && forall o, d :: !Affects(s, devices, o, d)
    ensures Outcome(VisitAll(s, devices, order)) == Configured(s, devices)
  {
    hide VerdictOf, Affects, Own, VisitAll, FromSome;
    VisitsAsConfigured(s, devices, order);
    var st := VisitAll(s, devices, order);
    if !st.invalid {
      assert forall k :: k in devices ==> k in order;
      assert !AnyInvalid(s, devices);
      assert st.devices == Configured(s, devices).value;
    }
  }

  // ---------------------------------------------------------------- invalid numbers

  /** An invalid number of a device's own is found in every order, if no other is before. */
  lemma {:induction false} OwnInvalidFound(s: Purge, devices: map<string, Device>, order: seq<string>, bad: string)
    requires InvalidOwn(devices, bad)
    ensures var st := VisitAll(s, devices, order);
            if bad in order then st.invalid
            else (bad in st.devices && st.devices[bad] == devices[bad])
    ensures forall k :: k in VisitAll(s, devices, order).devices ==> k in devices && VisitAll(s, devices, order).devices[k] == devices[k]
  {
    if order != [] {
      var n := |order| - 1;
      OwnInvalidFound(s, devices, order[..n], bad);
      assert order == order[..n] + [order[n]];
      if order[n] == bad && bad !in order[..n] {
        assert VerdictOf(s, devices[bad], devices[bad].purge).Invalid?;
      }
    }
  }

  // ---------------------------------------------------------------- orders that do not

  /** Once past a valid number, with no invalid ones ahead, the run goes through, and a device that is gone stays gone. */
  lemma {:induction false} GoesThrough(s: Purge, devices: map<string, Device>, first: seq<string>, rest: seq<string>)
    requires forall k :: !InvalidOwn(devices, k)
    requires var st := VisitAll(s, devices, first);
             !st.invalid && st.removeNum >= -1 && forall k :: k in st.devices ==> k in devices && st.devices[k] == devices[k]
    ensures var st, end := VisitAll(s, devices, first), VisitAll(s, devices, first + rest);
            && !end.invalid && end.removeNum >= -1
            && (forall k :: k in end.devices ==> k in devices && end.devices[k] == devices[k])
            && (forall k :: k !in rest ==> (k in end.devices <==> k in st.devices))
    decreases |rest|
  {
    if rest == [] {
      assert first + rest == first;
    } else {
      var n := |rest| - 1;
      GoesThrough(s, devices, first, rest[..n]);
      assert (first + rest)[..|first + rest| - 1] == first + rest[..n];
      assert rest == rest[..n] + [rest[n]];
      var st := VisitAll(s, devices, first + rest[..n]);
      assert rest[n] in st.devices ==> !InvalidOwn(devices, rest[n]);
    }
  }

  /** First the device with the number, then the one it affects, then all others. */
  lemma AffectedFirst(s: Purge, devices: map<string, Device>, o: string, d: string) returns (order: seq<string>)
    requires Affects(s, devices, o, d) && forall k :: !InvalidOwn(devices, k)
    ensures Lists(order, devices.Keys) && Outcome(VisitAll(s, devices, order)) != Configured(s, devices)
  {
    var rest := ListOf(devices.Keys - {o, d});
    order := [o, d] + rest;
    ListsConcat([o, d], rest, {o, d}, devices.Keys - {o, d});
    assert {o, d} + (devices.Keys - {o, d}) == devices.Keys;
    AffectedSecond(s, devices, o, d);
    GoesThrough(s, devices, [o, d], rest);
    var keeps := VerdictOf(s, devices[d], s.global).Keep?;
    assert !AnyInvalid(s, devices) ==> (d in Configured(s, devices).value <==> keeps);
    assert d !in rest;
  }

  lemma VisitLast(s: Purge, devices: map<string, Device>, order: seq<string>, k: string)
    ensures VisitAll(s, devices, order + [k]) == Visit(s, VisitAll(s, devices, order), k)
  {
    hide Visit;
    assert (order + [k])[..|order|] == order;
  }

  lemma AffectedSecond(s: Purge, devices: map<string, Device>, o: string, d: string)
    requires Affects(s, devices, o, d) && !InvalidOwn(devices, o)
    ensures var st := VisitAll(s, devices, [o, d]);
            && !st.invalid && st.removeNum == devices[o].purge
            && (d in st.devices <==> VerdictOf(s, devices[d], devices[o].purge).Keep?)
            && forall k :: k in st.devices ==> k in devices && st.devices[k] == devices[k]
  {
    var st := VisitAll(s, devices, [o]);
    VisitLast(s, devices, [], o);
    VisitLast(s, devices, [o], d);
    assert [] + [o] == [o] && [o] + [d] == [o, d];
    assert VisitAll(s, devices, []) == State(devices, s.global, false);
    assert st.removeNum == devices[o].purge && !st.invalid && d in st.devices;
  }

  /**
   * The purge does what is configured in every order exactly when no device with a number of its own would make a
   * difference to one without, or some device's own number is invalid, which is an error in every order.
   */
  lemma PurgeAsConfiguredIff(s: Purge, devices: map<string, Device>)
    ensures (forall order: seq<string> :: Lists(order, devices.Keys) ==> Outcome(VisitAll(s, devices, order)) == Configured(s, devices))
            <==> (exists k :: InvalidOwn(devices, k)) || forall o, d :: !Affects(s, devices, o, d)
  {
    hide VisitAll, Outcome, Affects, VerdictOf;
    if bad :| InvalidOwn(devices, bad) {
      forall order: seq<string> | Lists(order, devices.Keys) ensures Outcome(VisitAll(s, devices, order)) == Configured(s, devices) {
        InvalidIsError(s, devices, order, bad);
      }
    } else if o, d :| Affects(s, devices, o, d) {
      var order := AffectedFirst(s, devices, o, d);
    } else {
      forall order: seq<string> | Lists(order, devices.Keys) ensures Outcome(VisitAll(s, devices, order)) == Configured(s, devices) {
        AllAsConfigured(s, devices, order);
      }
    }
  }

  lemma InvalidIsError(s: Purge, devices: map<string, Device>, order: seq<string>, bad: string)
    requires InvalidOwn(devices, bad) && Lists(order, devices.Keys)
    ensures Outcome(VisitAll(s, devices, order)) == None == Configured(s, devices)
  {
    hide VisitAll;
    OwnInvalidFound(s, devices, order, bad);
    assert VerdictOf(s, devices[bad], Own(s, devices[bad])).Invalid?;
  }

  /** A device kept forever that goes, or stays, with the order: the number of the other one stays in force after it. */
  lemma OwnNumberRemovesAnother()
    ensures var minute, a, b := 60 * 1_000_000_000, Device("a", "", "", 60 * 60 * 1_000_000_000, 1), Device("b", "", "", 0, 0);
            var s, devices := Purge(-1, minute, 60 * minute), map["a" := a, "b" := b];
            && Configured(s, devices) == Some(devices)
            && Outcome(VisitAll(s, devices, ["b", "a"])) == Some(devices)
            && Outcome(VisitAll(s, devices, ["a", "b"])) == Some(map["a" := a])
  {
    var minute, a, b := 60 * 1_000_000_000, Device("a", "", "", 60 * 60 * 1_000_000_000, 1), Device("b", "", "", 0, 0);
    var s, devices := Purge(-1, minute, 60 * minute), map["a" := a, "b" := b];
    var first: seq<string> := ["a"];
    var second: seq<string> := ["b"];
    VisitLast(s, devices, [], "a");
    VisitLast(s, devices, [], "b");
    VisitLast(s, devices, ["a"], "b");
    VisitLast(s, devices, ["b"], "a");
    assert [] + first == first && [] + second == second && first + second == ["a", "b"] && second + first == ["b", "a"];
    assert VisitAll(s, devices, first) == State(devices, 1, false);
    assert VisitAll(s, devices, second) == State(devices, -1, false);
    assert devices - {"b"} == map["a" := a];
    assert Configured(s, devices).value == devices;
  }
}
