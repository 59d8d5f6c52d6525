/** Merging discovered devices into a configuration: add or replace, drop duplicates by engine ID, purge. */
module Discovery {
  import opened Options
  import opened Sequences
  import opened PurgeModel

  datatype Rules = Rules(replaceDevices: bool, noDedup: bool, purge: Purge)

  datatype Stats = Stats(added: int, replaced: nat, delta: int)

  function AltKey(d: Device, dip: string): string {
    d.name + "__" + dip
  }

  /** A device but for when it was checked, and for its own purge number. */
  predicate SameDevice(a: Device, b: Device) {
    a.name == b.name && a.ip == b.ip && a.engineId == b.engineId
  }

  ghost predicate IsFound(found: map<string, Device>, x: Device) {
    exists dip :: dip in found && SameDevice(x, found[dip])
  }

  ghost predicate IsAltKey(found: map<string, Device>, k: string) {
    exists dip :: dip in found && k == found[dip].name + "__" + dip
  }

  /**
   * Merged: nothing goes, new devices come under a name with their address and are found ones, and without
   * replacing an old one stays as it was but for when it was checked; every found device has a place.
   */
  ghost predicate Merges(r: Rules, before: map<string, Device>, found: map<string, Device>, after: map<string, Device>) {
    && (forall k :: k in before ==> k in after)
    && (forall k :: k in after && k !in before ==> IsAltKey(found, k) && IsFound(found, after[k]))
    && (forall k :: k in before ==>
          || after[k] == before[k] || after[k] == before[k].(checked := r.purge.now)
          || (r.replaceDevices && IsFound(found, after[k])))
  }

  ghost predicate HasPlace(found: map<string, Device>, dip: string, after: map<string, Device>) {
    dip in found && (found[dip].name in after || found[dip].name + "__" + dip in after)
  }

  // ---------------------------------------------------------------- where a found device ends

  /** The address is that of a device there was. */
  ghost predicate IsKnown(before: map<string, Device>, dip: string) {
    exists k :: k in before && before[k].ip == dip
  }

  /** A known device has its place under its name if there is one; any other under its name and address. */
  ghost function PlaceFor(before: map<string, Device>, found: map<string, Device>, dip: string): string
    requires dip in found
  {
    var name := found[dip].name;
    if IsKnown(before, dip) && name in before then name else name + "__" + dip
  }

  /** A found device may get in the way at k: its place, or the name it is known by. */
  ghost predicate MayTake(before: map<string, Device>, found: map<string, Device>, o: string, k: string) {
    o in found && (PlaceFor(before, found, o) == k || (IsKnown(before, o) && found[o].name == k))
  }

  /** No other found device gets in the way of one, at its place or at the name it is known by. */
  ghost predicate IsAlone(before: map<string, Device>, found: map<string, Device>, dip: string) {
    && dip in found
    && forall o :: o in found && o != dip ==>
         && !MayTake(before, found, o, PlaceFor(before, found, dip))
         && (IsKnown(before, dip) ==> PlaceFor(before, found, o) != found[dip].name)
  }

  /** What is at the place of a found device in the end: it itself, with its purge number kept, or the old one, marked. */
  ghost predicate IsPlaced(r: Rules, before: map<string, Device>, found: map<string, Device>, dip: string, after: map<string, Device>) {
    && dip in found
    && var k, d := PlaceFor(before, found, dip), found[dip];
    && k in after
    && if k !in before then after[k] == d
       else if r.replaceDevices then after[k] == d.(purge := if before[k].purge != 0 then before[k].purge else d.purge)
       else after[k] == before[k].(checked := r.purge.now)
  }

  /** What is not any found device's business stays as it was. */
  ghost predicate OthersStay(before: map<string, Device>, found: map<string, Device>, after: map<string, Device>) {
    forall k :: k in before && (forall o :: !MayTake(before, found, o, k)) ==> k in after && after[k] == before[k]
  }

  /** The places that are new. */
  ghost function NewOnes(before: map<string, Device>, found: map<string, Device>): set<string> {
    set dip | dip in found && PlaceFor(before, found, dip) !in before
  }

  ghost predicate HasEngine(devices: map<string, Device>, id: string) {
    exists k :: k in devices && devices[k].engineId == id
  }

  predicate SameEngine(a: Device, b: Device) {
    a.engineId == b.engineId && a.engineId != ""
  }

  ghost predicate DistinctEngines(devices: map<string, Device>) {
    forall j, k :: j in devices && k in devices && devices[j].engineId == devices[k].engineId != "" ==> j == k
  }

  ghost predicate PartOf(part: map<string, Device>, whole: map<string, Device>) {
    forall k :: k in part ==> k in whole && part[k] == whole[k]
  }

  /** One device is left for each engine ID, and every device without one. */
  ghost predicate Dedupes(r: Rules, before: map<string, Device>, after: map<string, Device>) {
    if r.noDedup then after == before
    else
      && PartOf(after, before) && DistinctEngines(after)
      && (forall id :: HasEngine(before, id) ==> HasEngine(after, id))
      && (forall k :: k in before && before[k].engineId == "" ==> k in after)
  }

  lemma PartDistinct(r: Rules, before: map<string, Device>, after: map<string, Device>, part: map<string, Device>)
    requires Dedupes(r, before, after) && PartOf(part, after)
    ensures !r.noDedup ==> DistinctEngines(part)
  {
  }

  lemma SizeWithout(m: map<string, Device>, k: string)
    requires k in m
    ensures |m - {k}| == |m| - 1
  {
    assert (m - {k}).Keys == m.Keys - {k};
    assert |m - {k}| == |(m - {k}).Keys| && |m| == |m.Keys|;
  }

  lemma SizeWith(m: map<string, Device>, k: string, d: Device)
    ensures |m[k := d]| == |m| + if k in m then 0 else 1
  {
    assert m[k := d].Keys == m.Keys + {k};
    assert |m[k := d]| == |m[k := d].Keys| && |m| == |m.Keys|;
  }

  class SnmpConfig {
    const rules: Rules
    var devices: map<string, Device>

    constructor (rules: Rules, devices: map<string, Device>)
      ensures this.rules == rules && this.devices == devices
    {
      this.rules, this.devices := rules, devices;
    }

    /** One found device: added, or put in the place of the one there is, or that one marked as checked. */
    method MergeOne(dip: string, d: Device, known: bool) returns (added: nat, replaced: nat)
      modifies this
      ensures devices == Placed(rules, old(devices), dip, d, known)
      ensures added == (if PlaceOf(old(devices), dip, d, known) in old(devices) then 0 else 1)
      ensures replaced == (if added == 0 && rules.replaceDevices then 1 else 0)
    {
      var key, keyAlt := d.name, AltKey(d, dip);
      if !known && d.name in devices {
        key := keyAlt;
      }
      added, replaced := 0, 0;
      if key !in devices && keyAlt !in devices {
        devices := devices[keyAlt := d];
        added := 1;
      } else if key in devices {
        if rules.replaceDevices {
          devices := devices[key := UpdateFrom(d, devices[key])];
          replaced := 1;
        } else {
          devices := devices[key := devices[key].(checked := rules.purge.now)];
        }
      } else {
        if rules.replaceDevices {
          devices := devices[keyAlt := UpdateFrom(d, devices[keyAlt])];
          replaced := 1;
        } else {
          devices := devices[keyAlt := devices[keyAlt].(checked := rules.purge.now)];
        }
      }
    }

    /** All found devices, in whatever order the map gives them. */
    method Merge(found: map<string, Device>) returns (added: nat, replaced: nat)
      modifies this
      ensures Merges(rules, old(devices), found, devices) && |devices| == |old(devices)| + added
      ensures forall dip :: dip in found ==> HasPlace(found, dip, devices)
      ensures forall dip :: IsAlone(old(devices), found, dip) ==> IsPlaced(rules, old(devices), found, dip, devices)
      ensures OthersStay(old(devices), found, devices)
      ensures if rules.replaceDevices then added + replaced == |found| else replaced == 0
      ensures (forall dip :: dip in found ==> IsAlone(old(devices), found, dip)) ==> added == |NewOnes(old(devices), found)|
    {
      hide Placed, Merges, HasPlace, PlaceOf, Placing, IsPlaced, OthersStay, IsAlone, IsKnown, PlaceFor;
      ghost var before := devices;
      NothingPlaced(rules, before, found);
      ghost var news: set<string> := {};
      var byIP := set k | k in devices :: devices[k].ip;
      added, replaced := 0, 0;
      NothingMerged(rules, before, found);
      var todo := found.Keys;
      while todo != {}
        invariant todo <= found.Keys
        invariant Merges(rules, before, found, devices) && |devices| == |before| + added
        invariant forall dip :: dip in found && dip !in todo ==> HasPlace(found, dip, devices)
        invariant forall dip :: IsAlone(before, found, dip) ==> Placing(rules, before, found, todo, dip, devices)
        invariant OthersStay(before, found, devices)
        invariant news <= found.Keys - todo && added == |news|
        invariant if rules.replaceDevices then added + replaced + |todo| == |found.Keys| else replaced == 0
        invariant forall dip :: dip in found && dip !in todo && IsAlone(before, found, dip) ==>
                    (dip in news <==> PlaceFor(before, found, dip) !in before)
      {
        var dip :| dip in todo;
        KnownIs(before, byIP, dip);
        PlacedMerges(rules, before, found, devices, dip, dip in byIP);
        PlacingAll(rules, before, found, todo, devices, dip);
        var a, n := MergeOne(dip, found[dip], dip in byIP);
        todo := todo - {dip};
        added, replaced := added + a, replaced + n;
        if a == 1 {
          news := news + {dip};
        }
      }
      AllPlaced(rules, before, found, devices);
      if forall dip :: dip in found ==> IsAlone(before, found, dip) {
        assert news == NewOnes(before, found);
      }
    }

    /** One device for each engine ID, whichever the map gives first. */
    method Dedupe() returns (removed: nat)
      modifies this
      ensures Dedupes(rules, old(devices), devices) && |devices| == |old(devices)| - removed
    {
      hide Dedupes;
      removed := 0;
      ghost var before := devices;
      var byEngineID: set<string> := {};
      var todo := devices.Keys;
      StartDedupe(rules, before);
      while todo != {}
        invariant todo <= devices.Keys && |devices| == |before| - removed
        invariant Deduping(rules, before, devices, byEngineID, todo)
      {
        var dip :| dip in todo;
        var d := devices[dip];
        DedupeStep(rules, before, devices, byEngineID, todo, dip);
        if !rules.noDedup && d.engineId != "" {
          if d.engineId in byEngineID {
            SizeWithout(devices, dip);
            devices := devices - {dip};
            removed := removed + 1;
          } else {
            byEngineID := byEngineID + {d.engineId};
          }
        }
        todo := todo - {dip};
      }
      EndDedupe(rules, before, devices, byEngineID);
    }

    /** One device of the purge, with the number carried on. */
    method PurgeOne(dip: string, carried: int) returns (removeNum: int, removed: nat, ok: bool)
      requires dip in devices
      modifies this
      ensures State(devices, removeNum, !ok) == Visit(rules.purge, State(old(devices), carried, false), dip)
      ensures |devices| == |old(devices)| - removed && (devices == old(devices) || devices == old(devices) - {dip})
      ensures var d, p := old(devices)[dip], rules.purge;
              var n := if d.purge != 0 then d.purge else carried;
              && removeNum == n && (ok <==> n >= -1)
              // not seen for n polls and 15 minutes more, in nanoseconds
              && (removed == 1 <==> n > 0 && p.poll > 0 && p.now - d.checked > n * p.poll + 900_000_000_000)
    {
      var d := devices[dip];
      removeNum, removed, ok := carried, 0, true;
      if d.purge != 0 {
        removeNum := d.purge;
      }
      if removeNum == -1 {
        return;
      } else if removeNum < -1 {
        return removeNum, 0, false;
      }
      if removeNum > 0 && rules.purge.poll > 0 {
        var removeTime := rules.purge.now - removeNum * rules.purge.poll;
        removeTime := removeTime + REMOVE_TIME_BUFFER;
        if d.checked < removeTime {
          SizeWithout(devices, dip);
          devices := devices - {dip};
          removed := 1;
        }
      }
    }

    /** Removes what has not been seen for long enough; stops at an invalid number. */
    method PurgeDevices() returns (removed: nat, ok: bool, ghost order: seq<string>)
      modifies this
      ensures Lists(order, old(devices.Keys)) && |devices| == |old(devices)| - removed && PartOf(devices, old(devices))
      ensures var end := VisitAll(rules.purge, old(devices), order);
              ok == !end.invalid && devices == end.devices
    {
      hide Visit, VisitAll, PartOf, Lists, AreSplit;
      ghost var before := devices;
      NothingDone(before.Keys);
      NothingPurged(rules.purge, before);
      removed, ok, order := 0, true, [];
      var removeNum := rules.purge.global;
      var todo := devices.Keys;
      ghost var done: set<string> := {};
      while todo != {}
        invariant todo <= devices.Keys && Lists(order, done) && AreSplit(before.Keys, done, todo)
        invariant VisitAll(rules.purge, before, order) == State(devices, removeNum, false)
        invariant |devices| == |before| - removed && PartOf(devices, before)
      {
        var dip :| dip in todo;
        OneMoreListed(rules.purge, before, order, done, todo, dip);
        todo := todo - {dip};
        order, done := order + [dip], done + {dip};
        PartWithout(devices, before, dip);
        var gone;
        removeNum, gone, ok := PurgeOne(dip, removeNum);
        removed := removed + gone;
        if !ok {
          order := InvalidEnds(rules.purge, before, order, done, todo);
          return;
        }
      }
      AllDone(before.Keys, done);
    }

    /** The whole of a discovery run; the ghost results are the devices after the merge and after the duplicates went. */
    method AddDevices(found: map<string, Device>)
        returns (stats: Option<Stats>, ghost merged: map<string, Device>, ghost deduped: map<string, Device>, ghost order: seq<string>)
      modifies this
      ensures Merges(rules, old(devices), found, merged) && Dedupes(rules, merged, deduped) && PartOf(devices, deduped)
      ensures forall dip :: dip in found ==> HasPlace(found, dip, merged)
      ensures forall dip :: IsAlone(old(devices), found, dip) ==> IsPlaced(rules, old(devices), found, dip, merged)
      ensures OthersStay(old(devices), found, merged)
      ensures (forall dip :: dip in found ==> IsAlone(old(devices), found, dip)) ==>
                |merged| == |old(devices)| + |NewOnes(old(devices), found)|
      ensures !rules.noDedup ==> DistinctEngines(devices)
      ensures Lists(order, deduped.Keys)
      ensures var end := VisitAll(rules.purge, deduped, order);
              stats.None? == end.invalid && devices == end.devices
      ensures stats.Some? ==> |devices| == |old(devices)| + stats.value.added && stats.value.delta == -stats.value.added
      ensures stats.Some? ==>
                stats.value.replaced == if rules.replaceDevices then |found| - (|merged| - |old(devices)|) else 0
    {
      hide Merges, Dedupes, PartOf, HasPlace, DistinctEngines, IsAlone, IsPlaced, OthersStay, NewOnes;
      var origCount := |devices|;
      var added, replaced := Merge(found);
      merged := devices;
      var duplicates := Dedupe();
      deduped := devices;
      var purged, ok;
      purged, ok, order := PurgeDevices();
      PartDistinct(rules, merged, deduped, devices);
      if !ok {
        return None, merged, deduped, order;
      }
      var total: int := added;
      total := total - duplicates;
      total := total - purged;
      stats := Some(Stats(total, replaced, origCount - |devices|));
    }
  }

  /** What a replacing device takes over from the one it replaces. */
  function UpdateFrom(d: Device, was: Device): (u: Device)
    ensures SameDevice(u, d)
  {
    if was.purge != 0 then d.(purge := was.purge) else d
  }

  /** A device known by its address keeps the name it has; any other comes under its name and address. */
  function PlaceOf(devices: map<string, Device>, dip: string, d: Device, known: bool): string {
    if known && d.name in devices then d.name else AltKey(d, dip)
  }

  function Placed(r: Rules, devices: map<string, Device>, dip: string, d: Device, known: bool): map<string, Device> {
    var at := PlaceOf(devices, dip, d, known);
    devices[at := if at !in devices then d
                  else if r.replaceDevices then UpdateFrom(d, devices[at])
                  else devices[at].(checked := r.purge.now)]
  }

  lemma NothingMerged(r: Rules, before: map<string, Device>, found: map<string, Device>)
    ensures Merges(r, before, found, before)
  {
  }

  lemma PlacedMerges(r: Rules, before: map<string, Device>, found: map<string, Device>, devices: map<string, Device>, dip: string, known: bool)
    requires dip in found && Merges(r, before, found, devices)
    ensures var d := found[dip];
            var after, at := Placed(r, devices, dip, d, known), PlaceOf(devices, dip, d, known);
            && Merges(r, before, found, after) && HasPlace(found, dip, after)
            && |after| == |devices| + (if at in devices then 0 else 1)
            && forall other :: HasPlace(found, other, devices) ==> HasPlace(found, other, after)
  {
    var d := found[dip];
    var after, at := Placed(r, devices, dip, d, known), PlaceOf(devices, dip, d, known);
    SizeWith(devices, at, after[at]);
    assert IsFound(found, d) && IsAltKey(found, AltKey(d, dip));
    assert SameDevice(UpdateFrom(d, d), d);
    if at in devices && r.replaceDevices {
      assert SameDevice(after[at], found[dip]);
    } else if at in devices && IsFound(found, devices[at]) {
      var o :| o in found && SameDevice(devices[at], found[o]);
      assert SameDevice(after[at], found[o]);
    }
  }

  /** Where a found device stands that no other gets in the way of: not yet merged, or at its place. */
  ghost predicate Placing(r: Rules, before: map<string, Device>, found: map<string, Device>, todo: set<string>,
                          dip: string, devices: map<string, Device>)
  {
    && dip in found
    && if dip !in todo then IsPlaced(r, before, found, dip, devices)
       else
         var k, name := PlaceFor(before, found, dip), found[dip].name;
         && (k in devices <==> k in before) && (k in before ==> k in devices && devices[k] == before[k])
         && (IsKnown(before, dip) ==> (name in devices <==> name in before))
  }

  lemma NothingPlaced(r: Rules, before: map<string, Device>, found: map<string, Device>)
    ensures forall dip :: IsAlone(before, found, dip) ==> Placing(r, before, found, found.Keys, dip, before)
    ensures OthersStay(before, found, before)
  {
    hide IsKnown, PlaceFor;
  }

  lemma AllPlaced(r: Rules, before: map<string, Device>, found: map<string, Device>, devices: map<string, Device>)
    requires forall dip :: IsAlone(before, found, dip) ==> Placing(r, before, found, {}, dip, devices)
    ensures forall dip :: IsAlone(before, found, dip) ==> IsPlaced(r, before, found, dip, devices)
  {
    hide IsAlone, IsPlaced;
  }

  lemma KnownIs(before: map<string, Device>, byIP: set<string>, dip: string)
    requires byIP == set k | k in before :: before[k].ip
    ensures IsKnown(before, dip) <==> dip in byIP
  {
  }

  /** A device lands at its place, or at the name it is known by if something came there meanwhile. */
  lemma Lands(before: map<string, Device>, found: map<string, Device>, devices: map<string, Device>, dip: string)
    requires dip in found && forall k :: k in before ==> k in devices
    ensures var at := PlaceOf(devices, dip, found[dip], IsKnown(before, dip));
            || at == PlaceFor(before, found, dip)
            || (IsKnown(before, dip) && at == found[dip].name && at in devices)
  {
    hide IsKnown;
  }

  lemma PlacingStep(r: Rules, before: map<string, Device>, found: map<string, Device>, todo: set<string>, devices: map<string, Device>,
                    dip: string, other: string)
    requires dip in found && dip in todo && forall k :: k in before ==> k in devices
    requires IsAlone(before, found, other) && Placing(r, before, found, todo, other, devices)
    ensures Placing(r, before, found, todo - {dip}, other, Placed(r, devices, dip, found[dip], IsKnown(before, dip)))
    ensures other == dip ==> (PlaceOf(devices, dip, found[dip], IsKnown(before, dip)) in devices <==> PlaceFor(before, found, dip) in before)
  {
    hide IsKnown;
    Lands(before, found, devices, dip);
    if other != dip {
      assert !MayTake(before, found, dip, PlaceFor(before, found, other));
    }
  }

  lemma PlacingAll(r: Rules, before: map<string, Device>, found: map<string, Device>, todo: set<string>, devices: map<string, Device>, dip: string)
    requires dip in found && dip in todo && Merges(r, before, found, devices) && OthersStay(before, found, devices)
    requires forall other :: IsAlone(before, found, other) ==> Placing(r, before, found, todo, other, devices)
    ensures var known, d := IsKnown(before, dip), found[dip];
            && OthersStay(before, found, Placed(r, devices, dip, d, known))
            && (forall other :: IsAlone(before, found, other) ==> Placing(r, before, found, todo - {dip}, other, Placed(r, devices, dip, d, known)))
            && (IsAlone(before, found, dip) ==> (PlaceOf(devices, dip, d, known) in devices <==> PlaceFor(before, found, dip) in before))
  {
    hide IsKnown, Placing, IsAlone, PlaceFor, PlaceOf;
    Lands(before, found, devices, dip);
    forall other | IsAlone(before, found, other)
      ensures Placing(r, before, found, todo - {dip}, other, Placed(r, devices, dip, found[dip], IsKnown(before, dip)))
      ensures other == dip ==> (PlaceOf(devices, dip, found[dip], IsKnown(before, dip)) in devices <==> PlaceFor(before, found, dip) in before)
    {
      PlacingStep(r, before, found, todo, devices, dip, other);
    }
    forall k | k in before && (forall o :: !MayTake(before, found, o, k))
      ensures k in Placed(r, devices, dip, found[dip], IsKnown(before, dip))
              && Placed(r, devices, dip, found[dip], IsKnown(before, dip))[k] == before[k]
    {
      assert !MayTake(before, found, dip, k);
    }
  }

  // ---------------------------------------------------------------- the loop over engine IDs

  /** A visited device with the ID is left. */
  ghost predicate IsKept(devices: map<string, Device>, todo: set<string>, id: string) {
    exists k :: k in devices && k !in todo && devices[k].engineId == id
  }

  ghost predicate VisitedDistinct(devices: map<string, Device>, todo: set<string>) {
    forall j, k :: j in devices && k in devices && j !in todo && k !in todo && SameEngine(devices[j], devices[k]) ==> j == k
  }

  /** Of the devices not yet visited none is gone; the IDs seen are those visited, and each is kept once. */
  ghost predicate Deduping(r: Rules, before: map<string, Device>, devices: map<string, Device>, seen: set<string>, todo: set<string>) {
    if r.noDedup then devices == before
    else
      && PartOf(devices, before)
      && (forall k :: k in before && (k in todo || before[k].engineId == "") ==> k in devices)
      && (forall k :: k in before && k !in todo && before[k].engineId != "" ==> before[k].engineId in seen)
      && (forall id :: id in seen ==> IsKept(devices, todo, id))
      && VisitedDistinct(devices, todo)
  }

  lemma StartDedupe(r: Rules, before: map<string, Device>)
    ensures Deduping(r, before, before, {}, before.Keys)
  {
  }

  lemma KeptStep(devices: map<string, Device>, todo: set<string>, dip: string, id: string)
    requires IsKept(devices, todo, id) && dip in todo
    ensures IsKept(devices, todo - {dip}, id) && IsKept(devices - {dip}, todo - {dip}, id)
  {
    var k :| k in devices && k !in todo && devices[k].engineId == id;
    assert k in devices - {dip} && k !in todo - {dip};
  }

  lemma DedupeStep(r: Rules, before: map<string, Device>, devices: map<string, Device>, seen: set<string>, todo: set<string>, dip: string)
    requires Deduping(r, before, devices, seen, todo) && dip in todo && todo <= devices.Keys
    ensures var id := devices[dip].engineId;
            if r.noDedup || id == "" then Deduping(r, before, devices, seen, todo - {dip})
            else if id in seen then Deduping(r, before, devices - {dip}, seen, todo - {dip})
            else Deduping(r, before, devices, seen + {id}, todo - {dip})
  {
    if !r.noDedup {
      var id := devices[dip].engineId;
      forall other | other in seen ensures IsKept(devices, todo - {dip}, other) && IsKept(devices - {dip}, todo - {dip}, other) {
        KeptStep(devices, todo, dip, other);
      }
      assert IsKept(devices, todo - {dip}, id) by {
        assert dip !in todo - {dip};
      }
      hide IsKept;
    }
  }

  lemma EndDedupe(r: Rules, before: map<string, Device>, devices: map<string, Device>, seen: set<string>)
    requires Deduping(r, before, devices, seen, {})
    ensures Dedupes(r, before, devices)
  {
    if !r.noDedup {
      forall id | HasEngine(before, id) ensures HasEngine(devices, id) {
        var k :| k in before && before[k].engineId == id;
        if id == "" {
          assert k in devices;
        } else {
          assert IsKept(devices, {}, id);
        }
      }
    }
  }

  // ---------------------------------------------------------------- the purge

  lemma NothingPurged(s: Purge, devices: map<string, Device>)
    ensures VisitAll(s, devices, []) == State(devices, s.global, false)
    ensures Lists<string>([], {}) && PartOf(devices, devices)
  {
  }

  ghost predicate AreSplit(all: set<string>, done: set<string>, todo: set<string>) {
    done !! todo && done + todo == all
  }

  lemma NothingDone(all: set<string>)
    ensures AreSplit(all, {}, all)
  {
  }

  lemma AllDone(all: set<string>, done: set<string>)
    requires AreSplit(all, done, {})
    ensures done == all
  {
  }

  lemma OneMoreListed(s: Purge, devices: map<string, Device>, order: seq<string>, done: set<string>, todo: set<string>, k: string)
    requires Lists(order, done) && k in todo && AreSplit(devices.Keys, done, todo)
    ensures Lists(order + [k], done + {k}) && AreSplit(devices.Keys, done + {k}, todo - {k})
    ensures VisitAll(s, devices, order + [k]) == Visit(s, VisitAll(s, devices, order), k)
  {
    hide Visit, VisitAll;
    ListsSnoc(order, done, k);
    VisitLast(s, devices, order, k);
  }

  lemma PartWithout(part: map<string, Device>, whole: map<string, Device>, k: string)
    requires PartOf(part, whole)
    ensures PartOf(part - {k}, whole)
  {
  }

  /** The devices not visited after an invalid number do not matter. */
  lemma InvalidEnds(s: Purge, devices: map<string, Device>, first: seq<string>, done: set<string>, todo: set<string>)
      returns (order: seq<string>)
    requires Lists(first, done) && AreSplit(devices.Keys, done, todo) && VisitAll(s, devices, first).invalid
    ensures Lists(order, devices.Keys) && VisitAll(s, devices, order) == VisitAll(s, devices, first)
  {
    hide VisitAll;
    var rest := ListOf(todo);
    order := first + rest;
    ListsConcat(first, rest, done, todo);
    InvalidStays(s, devices, first, rest);
  }

  lemma {:induction false} InvalidStays(s: Purge, devices: map<string, Device>, first: seq<string>, rest: seq<string>)
    requires VisitAll(s, devices, first).invalid
    ensures VisitAll(s, devices, first + rest) == VisitAll(s, devices, first)
    decreases |rest|
  {
    if rest == [] {
      assert first + rest == first;
    } else {
      var n := |rest| - 1;
      InvalidStays(s, devices, first, rest[..n]);
      assert first + rest == first + rest[..n] + [rest[n]];
      VisitLast(s, devices, first + rest[..n], rest[n]);
    }
  }

  // ---------------------------------------------------------------- who gets in the way

  /** Devices found at new addresses do not get in each other's way, whatever their names, as long as addresses hold no underscore. */
  lemma NewAreAlone(before: map<string, Device>, found: map<string, Device>)
    requires forall dip :: dip in found ==> !IsKnown(before, dip) && '_' !in dip
    ensures forall dip :: dip in found ==> IsAlone(before, found, dip) && PlaceFor(before, found, dip) == found[dip].name + "__" + dip
  {
    hide IsKnown;
    forall dip, o | dip in found && o in found && o != dip
      ensures !MayTake(before, found, o, PlaceFor(before, found, dip))
    {
      if found[o].name + "__" + o == found[dip].name + "__" + dip {
        SameAddress(found[o].name, o, found[dip].name, dip);
      }
    }
  }

  lemma SameAddress(a: string, x: string, b: string, y: string)
    requires '_' !in x && '_' !in y && a + "__" + x == b + "__" + y
    ensures x == y
  {
    var s := a + "__" + x;
    assert s == a + "_" + "_" + x && s == b + "_" + "_" + y;
    assert s[|a| + 1] == '_' && s[|b| + 1] == '_';
    assert forall i :: |a| + 2 <= i < |s| ==> s[i] == x[i - |a| - 2];
    assert forall i :: |b| + 2 <= i < |s| ==> s[i] == y[i - |b| - 2];
    assert |x| == |y|;
    assert s[|a| + 2..] == x && s[|b| + 2..] == y;
  }

  /** A known device that is named as a new one is placed: with replacing on, which of the two is left depends on the order. */
  lemma NameTakesPlace()
    ensures var was, a, b := Device("old", "2", "", 0, 0), Device("sw", "1", "", 5, 0), Device("sw__1", "2", "", 5, 0);
            var r, before, found := Rules(true, true, Purge(0, 0, 5)), map["old" := was], map["1" := a, "2" := b];
            && !IsAlone(before, found, "1")
            && Placed(r, Placed(r, before, "1", a, false), "2", b, true) == before["sw__1" := b]
            && Placed(r, Placed(r, before, "2", b, true), "1", a, false) == before["sw__1__2" := b]["sw__1" := a]
  {
    var was, a, b := Device("old", "2", "", 0, 0), Device("sw", "1", "", 5, 0), Device("sw__1", "2", "", 5, 0);
    var r, before, found := Rules(true, true, Purge(0, 0, 5)), map["old" := was], map["1" := a, "2" := b];
    assert "sw" + "__" + "1" == "sw__1" && "sw__1" + "__" + "2" == "sw__1__2";
    assert IsKnown(before, "2") by { assert before["old"].ip == "2"; }
    assert !IsKnown(before, "1");
    assert "2" in found && MayTake(before, found, "2", PlaceFor(before, found, "1"));
  }
}
