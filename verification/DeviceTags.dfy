/**
 * Tags of a device: those set for the device, its provider or everywhere carry a prefix, which is
 * taken off by loops over the map they change.
 */
module DeviceTags {
  import opened Options
  import opened RollupKeys
  import opened Sequences

  type Tags = map<string, string>

  const PROVIDER_TOKEN := ":"
  const PROVIDER_PREFIX := "provider:"
  const DEVICE_PROVIDER := "device"
  const GLOBAL_PROVIDER := "global"

  /** The provider and the tag behind a prefix, if there is a whole one. */
  function Parts(tag: string): Option<(string, string)> {
    if !HasPrefix(tag, PROVIDER_PREFIX) then None
    else
      match IndexFrom(tag, PROVIDER_TOKEN, |PROVIDER_PREFIX|)
      case None => None
      case Some(i) => Some((tag[|PROVIDER_PREFIX|..i], tag[i + 1..]))
  }

  function Prefixed(p: string, tag: string): string {
    PROVIDER_PREFIX + p + PROVIDER_TOKEN + tag
  }

  /** A tag has a provider and a rest exactly when it is these behind "provider:", with a colon between them, the first one. */
  lemma PartsIff(tag: string, p: string, rest: string)
    ensures Parts(tag) == Some((p, rest)) <==> tag == "provider:" + p + ":" + rest && ':' !in p
    ensures Prefixed(p, rest) == "provider:" + p + ":" + rest
  {
    hide Parts;
    PartsAre(tag, p, rest);
  }

  lemma PartsAre(tag: string, p: string, rest: string)
    ensures Parts(tag) == Some((p, rest)) <==> tag == Prefixed(p, rest) && ':' !in p
  {
    PartsGiven(tag, p, rest);
    if tag == Prefixed(p, rest) && ':' !in p {
      PartsFound(p, rest);
    }
  }

  lemma PartsGiven(tag: string, p: string, rest: string)
    ensures Parts(tag) == Some((p, rest)) ==> tag == Prefixed(p, rest) && ':' !in p
  {
    var n := |PROVIDER_PREFIX|;
    if Parts(tag) == Some((p, rest)) {
      var i := IndexFrom(tag, PROVIDER_TOKEN, n).value;
      assert tag == tag[..n] + tag[n..i] + tag[i..i + 1] + tag[i + 1..];
      forall j | 0 <= j < |p| ensures p[j] != ':' {
        assert !OccursAt(tag, PROVIDER_TOKEN, n + j);
        assert tag[n + j..n + j + 1] == [p[j]];
      }
    }
  }

  lemma PartsFound(p: string, rest: string)
    requires ':' !in p
    ensures Parts(Prefixed(p, rest)) == Some((p, rest))
  {
    var tag, n := Prefixed(p, rest), |PROVIDER_PREFIX|;
    var i := n + |p|;
    assert tag[i..i + 1] == PROVIDER_TOKEN && OccursAt(tag, PROVIDER_TOKEN, i);
    assert tag[..n] == PROVIDER_PREFIX && tag[n..i] == p && tag[i + 1..] == rest;
    forall j: nat | n <= j < i ensures !OccursAt(tag, PROVIDER_TOKEN, j) {
      assert tag[j..j + 1] == [p[j - n]];
    }
  }

  function MatchesPrefix(tag: string, p: string): Option<string> {
    match Parts(tag)
    case None => Some(tag)
    case Some(parts) => if parts.0 == p then Some(parts.1) else None
  }

  // ---------------------------------------------------------------- the loop over a map it changes

  /** One key of the loop. */
  function Visit(m: Tags, p: string, k: string): Tags {
    if k !in m || MatchesPrefix(k, p).None? then m
    else
      var nk, rest := MatchesPrefix(k, p).value, m - {k};
      if nk in rest then rest else rest[nk := m[k]]
  }

  function VisitAll(m: Tags, p: string, visits: seq<string>): Tags {
    if visits == [] then m else Visit(VisitAll(m, p, visits[..|visits| - 1]), p, visits[|visits| - 1])
  }

  /**
   * What a loop over a map may visit while it deletes and inserts: only keys that are there at the time, and every
   * key that was there at the start; a key inserted on the way may come up or not, and one put back may come up again.
   */
  ghost predicate IsIteration(m: Tags, p: string, visits: seq<string>) {
    && (forall k :: k in m ==> k in visits)
    && forall n :: 0 <= n < |visits| ==> visits[n] in VisitAll(m, p, visits[..n])
  }

  method Set(m: Tags, p: string, visits: seq<string>) returns (after: Tags)
    requires IsIteration(m, p, visits)
    ensures after == VisitAll(m, p, visits)
  {
    hide Parts;
    after := m;
    for n := 0 to |visits|
      invariant after == VisitAll(m, p, visits[..n])
    {
      var k := visits[n];
      var v := after[k];
      match MatchesPrefix(k, p) {
        case Some(nk) =>
          after := after - {k};
          if nk !in after {
            after := after[nk := v];
          }
        case None =>
      }
      assert visits[..n + 1][..n] == visits[..n];
    }
    assert visits[..|visits|] == visits;
  }

  // ---------------------------------------------------------------- what it leaves, in every order

  predicate HasProvider(tag: string) {
    HasPrefix(tag, PROVIDER_PREFIX)
  }

  predicate Belongs(tag: string, p: string) {
    Parts(tag).Some? && Parts(tag).value.0 == p
  }

  /** The prefix of one provider behind the prefix of the same provider. */
  predicate IsRepeated(tag: string, p: string) {
    Belongs(tag, p) && Belongs(Parts(tag).value.1, p)
  }

  ghost predicate Repeats(m: Tags, p: string) {
    exists k :: k in m && IsRepeated(k, p)
  }

  /** The value a tag has with the prefix of p. */
  function Level(m: Tags, p: string, tag: string): Option<string> {
    if ':' in p then None else Lookup(m, Prefixed(p, tag))
  }

  function Lookup(m: Tags, tag: string): Option<string> {
    if tag in m then Some(m[tag]) else None
  }

  function OrElse(a: Option<string>, b: Option<string>): Option<string> {
    if a.Some? then a else b
  }

  /** After some visits: the keys of p not yet visited are as before, and those visited have gone over to their tags. */
  ghost predicate Visiting(m: Tags, p: string, visits: seq<string>, c: Tags) {
    forall y :: Lookup(c, y) == VisitedValue(m, p, visits, y)
  }

  function VisitedValue(m: Tags, p: string, visits: seq<string>, y: string): Option<string> {
    if Belongs(y, p) then (if y in visits then None else Lookup(m, y))
    else OrElse(Lookup(m, y), if Prefixed(p, y) in visits then Level(m, p, y) else None)
  }

  lemma VisitOther(c: Tags, p: string, k: string)
    requires !Belongs(k, p)
    ensures Visit(c, p, k) == c
  {
    hide Parts;
    assert k in c ==> (c - {k})[k := c[k]] == c;
  }

  lemma VisitStep(m: Tags, p: string, visits: seq<string>, c: Tags, k: string)
    requires !Repeats(m, p) && Visiting(m, p, visits, c) && k in c
    ensures Visiting(m, p, visits + [k], Visit(c, p, k))
  {
    hide Parts, Prefixed;
    if Belongs(k, p) {
      var t := Parts(k).value.1;
      PartsIff(k, p, t);
      assert Lookup(c, k) == VisitedValue(m, p, visits, k);
      assert k in m && k !in visits && c[k] == m[k];
      assert !IsRepeated(k, p) && !Belongs(t, p);
      forall y ensures Lookup(Visit(c, p, k), y) == VisitedValue(m, p, visits + [k], y) {
        assert Lookup(c, y) == VisitedValue(m, p, visits, y);
        PartsIff(k, p, y);
      }
    } else {
      VisitOther(c, p, k);
      forall y ensures VisitedValue(m, p, visits + [k], y) == VisitedValue(m, p, visits, y) {
        PartsIff(k, p, y);
        PartsIff(Prefixed(p, y), p, y);
      }
    }
  }

  lemma NotOfP(t: string, p: string)
    requires !HasProvider(t)
    ensures !Belongs(t, p)
  {
  }

  lemma {:induction false} VisitsLeave(m: Tags, p: string, visits: seq<string>)
    requires !Repeats(m, p) && forall n :: 0 <= n < |visits| ==> visits[n] in VisitAll(m, p, visits[..n])
    ensures Visiting(m, p, visits, VisitAll(m, p, visits))
  {
    hide Visit, Belongs;
    if visits != [] {
      var n := |visits| - 1;
      assert visits == visits[..n] + [visits[n]];
      forall i | 0 <= i < n ensures visits[..n][i] in VisitAll(m, p, visits[..n][..i]) {
        assert visits[..n][..i] == visits[..i];
      }
      VisitsLeave(m, p, visits[..n]);
      VisitStep(m, p, visits[..n], VisitAll(m, p, visits[..n]), visits[n]);
    }
  }

  /** What a whole loop leaves of a tag: none with the prefix of p; any other has its own value, or else that of p. */
  function SetValue(m: Tags, p: string, y: string): Option<string> {
    if Belongs(y, p) then None else OrElse(Lookup(m, y), Level(m, p, y))
  }

  /** Whatever the loop visits and in whatever order, if no tag repeats its prefix. */
  lemma SetInAllOrders(m: Tags, p: string, visits: seq<string>, y: string)
    requires !Repeats(m, p) && IsIteration(m, p, visits)
    ensures Lookup(VisitAll(m, p, visits), y) == SetValue(m, p, y)
  {
    hide Belongs;
    VisitsLeave(m, p, visits);
    assert Lookup(VisitAll(m, p, visits), y) == VisitedValue(m, p, visits, y);
  }

  /** Keys in the map that are not yet visited stay there. */
  lemma {:induction false} UnvisitedStays(m: Tags, p: string, visits: seq<string>, k: string)
    requires k in m && k !in visits
    ensures k in VisitAll(m, p, visits)
  {
    hide Parts;
    if visits != [] {
      var n := |visits| - 1;
      assert visits == visits[..n] + [visits[n]];
      UnvisitedStays(m, p, visits[..n], k);
    }
  }

  /** Every key once is something the loop may visit. */
  lemma EachOnce(m: Tags, p: string, visits: seq<string>)
    requires Lists(visits, m.Keys)
    ensures IsIteration(m, p, visits)
  {
    hide VisitAll;
    forall n | 0 <= n < |visits| ensures visits[n] in VisitAll(m, p, visits[..n]) {
      assert visits[n] in m.Keys;
      assert visits[n] !in visits[..n];
      UnvisitedStays(m, p, visits[..n], visits[n]);
    }
  }

  lemma VisitLast(m: Tags, p: string, visits: seq<string>, k: string)
    ensures VisitAll(m, p, visits + [k]) == Visit(VisitAll(m, p, visits), p, k)
  {
    hide Visit;
    assert (visits + [k])[..|visits|] == visits;
  }

  lemma OneMoreVisit(m: Tags, p: string, visits: seq<string>, k: string)
    requires IsIteration(m, p, visits) && k in VisitAll(m, p, visits)
    ensures IsIteration(m, p, visits + [k])
  {
    hide VisitAll;
    var more := visits + [k];
    forall n | 0 <= n < |more| ensures more[n] in VisitAll(m, p, more[..n]) {
      assert n < |visits| ==> more[..n] == visits[..n] && more[n] == visits[n];
      assert more[..|visits|] == visits;
    }
  }

  /** A visit of a key of the provider leaves what is behind its prefix instead. */
  lemma VisitTakesOff(c: Tags, p: string, k: string)
    requires k in c && Belongs(k, p)
    ensures k !in Visit(c, p, k) && Parts(k).value.1 in Visit(c, p, k)
  {
    hide Parts;
    var t := Parts(k).value.1;
    PartsIff(k, p, t);
    assert |t| < |k|;
  }

  /** Where a key repeats its prefix, the loop may or may not come upon what it makes of that key. */
  lemma RepeatDiverges(m: Tags, p: string, k: string) returns (a: seq<string>, b: seq<string>)
    requires k in m && IsRepeated(k, p)
    ensures IsIteration(m, p, a) && IsIteration(m, p, b) && VisitAll(m, p, a) != VisitAll(m, p, b)
  {
    hide Parts, VisitAll, Visit, IsIteration;
    var inner := Parts(k).value.1;
    var others := ListOf(m.Keys - {k});
    a := others + [k];
    b := a + [inner];
    ListsSnoc(others, m.Keys - {k}, k);
    assert m.Keys - {k} + {k} == m.Keys;
    EachOnce(m, p, a);
    UnvisitedStays(m, p, others, k);
    VisitLast(m, p, others, k);
    VisitTakesOff(VisitAll(m, p, others), p, k);
    OneMoreVisit(m, p, a, inner);
    VisitLast(m, p, a, inner);
    VisitTakesOff(VisitAll(m, p, a), p, inner);
  }

  /** A loop leaves the same map whatever it visits and in whatever order exactly when no key repeats its prefix. */
  lemma SameInAllOrdersIff(m: Tags, p: string)
    ensures (forall a, b :: IsIteration(m, p, a) && IsIteration(m, p, b) ==> VisitAll(m, p, a) == VisitAll(m, p, b))
            <==> !Repeats(m, p)
  {
    hide VisitAll, IsIteration, IsRepeated;
    if k :| k in m && IsRepeated(k, p) {
      var a, b := RepeatDiverges(m, p, k);
    } else {
      forall a, b | IsIteration(m, p, a) && IsIteration(m, p, b) ensures VisitAll(m, p, a) == VisitAll(m, p, b) {
        forall y ensures Lookup(VisitAll(m, p, a), y) == Lookup(VisitAll(m, p, b), y) {
          SetInAllOrders(m, p, a, y);
          SetInAllOrders(m, p, b, y);
        }
        SameLookups(VisitAll(m, p, a), VisitAll(m, p, b));
      }
    }
  }

  lemma SameLookups(m: Tags, n: Tags)
    requires forall y :: Lookup(m, y) == Lookup(n, y)
    ensures m == n
  {
    forall y ensures (y in m <==> y in n) && (y in m ==> m[y] == n[y]) {
      assert Lookup(m, y) == Lookup(n, y);
    }
  }

  // ---------------------------------------------------------------- device, provider, global

  function Pruned(m: Tags): Tags {
    map k | k in m && !HasProvider(k) :: m[k]
  }

  method Prune(m: Tags) returns (after: Tags)
    ensures after == Pruned(m)
    ensures forall k :: k in after <==> k in m && forall rest :: k != "provider:" + rest
  {
    forall k ensures HasProvider(k) <==> exists rest :: k == "provider:" + rest {
      if HasProvider(k) {
        assert k == "provider:" + k[|PROVIDER_PREFIX|..];
      }
    }
    after := m;
    var todo := m.Keys;
    while todo != {}
      invariant todo <= m.Keys && after.Keys <= m.Keys
      invariant forall k :: k in m ==> (k in after <==> k in todo || !HasProvider(k))
      invariant forall k :: k in after ==> after[k] == m[k]
    {
      var k :| k in todo;
      todo := todo - {k};
      if HasProvider(k) {
        after := after - {k};
      }
    }
  }

  /** What the loops for the device, for its provider and for all devices visit. */
  datatype Visits = Visits(device: seq<string>, provider: seq<string>, global: seq<string>)

  function AfterDevice(m: Tags, v: Visits): Tags {
    VisitAll(m, DEVICE_PROVIDER, v.device)
  }

  function AfterProvider(m: Tags, provider: string, v: Visits): Tags {
    VisitAll(AfterDevice(m, v), provider, v.provider)
  }

  function AfterGlobal(m: Tags, provider: string, v: Visits): Tags {
    VisitAll(AfterProvider(m, provider, v), GLOBAL_PROVIDER, v.global)
  }

  ghost predicate AreIterations(m: Tags, provider: string, v: Visits) {
    && IsIteration(m, DEVICE_PROVIDER, v.device)
    && IsIteration(AfterDevice(m, v), provider, v.provider)
    && IsIteration(AfterProvider(m, provider, v), GLOBAL_PROVIDER, v.global)
  }

  class SnmpDeviceConfig {
    const provider: string
    var userTags: Tags
    var matchAttr: Tags

    constructor (provider: string, userTags: Tags, matchAttr: Tags)
      ensures this.provider == provider && this.userTags == userTags && this.matchAttr == matchAttr
    {
      this.provider, this.userTags, this.matchAttr := provider, userTags, matchAttr;
    }

    method SetDeviceTagsAndMatch(tags: Visits, attrs: Visits)
      requires AreIterations(userTags, provider, tags) && AreIterations(matchAttr, provider, attrs)
      modifies this
      ensures userTags == Pruned(AfterGlobal(old(userTags), provider, tags))
      ensures matchAttr == Pruned(AfterGlobal(old(matchAttr), provider, attrs))
    {
      hide Pruned, VisitAll, IsIteration;
      userTags := Set(userTags, DEVICE_PROVIDER, tags.device);
      matchAttr := Set(matchAttr, DEVICE_PROVIDER, attrs.device);

      userTags := Set(userTags, provider, tags.provider);
      matchAttr := Set(matchAttr, provider, attrs.provider);

      userTags := Set(userTags, GLOBAL_PROVIDER, tags.global);
      matchAttr := Set(matchAttr, GLOBAL_PROVIDER, attrs.global);

      userTags := Prune(userTags);
      matchAttr := Prune(matchAttr);
    }
  }

  // ---------------------------------------------------------------- the three loops together

  /** A tag without the prefix of one provider. */
  function Peel(tag: string, p: string): string {
    if Belongs(tag, p) then Parts(tag).value.1 else tag
  }

  /** Some key repeats a prefix by the time the loop for that prefix comes. */
  ghost predicate RepeatsOnTheWay(m: Tags, provider: string) {
    exists k :: k in m && RepeatsSomewhere(k, provider)
  }

  predicate RepeatsSomewhere(k: string, provider: string) {
    var a := Peel(k, DEVICE_PROVIDER);
    var b := Peel(a, provider);
    IsRepeated(k, DEVICE_PROVIDER) || IsRepeated(a, provider) || IsRepeated(b, GLOBAL_PROVIDER)
  }

  lemma KeysPeeled(m: Tags, p: string, visits: seq<string>, y: string) returns (k: string)
    requires !Repeats(m, p) && IsIteration(m, p, visits) && y in VisitAll(m, p, visits)
    ensures k in m && y == Peel(k, p)
  {
    hide VisitAll, IsIteration, Parts, Prefixed, IsRepeated;
    SetInAllOrders(m, p, visits, y);
    k := if y in m then y else Prefixed(p, y);
    PartsIff(k, p, y);
  }

  lemma NoRepeatsLater(m: Tags, provider: string, v: Visits)
    requires !RepeatsOnTheWay(m, provider) && AreIterations(m, provider, v)
    ensures !Repeats(m, DEVICE_PROVIDER) && !Repeats(AfterDevice(m, v), provider)
    ensures !Repeats(AfterProvider(m, provider, v), GLOBAL_PROVIDER)
  {
    hide VisitAll, IsIteration, Peel, IsRepeated;
    forall k | k in m ensures !RepeatsSomewhere(k, provider) {
    }
    var a, b := AfterDevice(m, v), AfterProvider(m, provider, v);
    forall y | y in a ensures !IsRepeated(y, provider) {
      var k := KeysPeeled(m, DEVICE_PROVIDER, v.device, y);
    }
    forall z | z in b ensures !IsRepeated(z, GLOBAL_PROVIDER) {
      var y := KeysPeeled(a, provider, v.provider, z);
      var k := KeysPeeled(m, DEVICE_PROVIDER, v.device, y);
    }
  }

  function ProviderValue(m: Tags, provider: string, y: string): Option<string> {
    if Belongs(y, provider) then None
    else
      OrElse(SetValue(m, DEVICE_PROVIDER, y),
             if ':' in provider then None else SetValue(m, DEVICE_PROVIDER, Prefixed(provider, y)))
  }

  /** The first of its own value, that behind the device's prefix, the provider's, and that for all devices, nested ones included. */
  function TagValue(m: Tags, provider: string, y: string): Option<string> {
    if Belongs(y, GLOBAL_PROVIDER) then None
    else OrElse(ProviderValue(m, provider, y), ProviderValue(m, provider, Prefixed(GLOBAL_PROVIDER, y)))
  }

  /**
   * In every order, and whatever else the loops visit, if no key repeats a prefix on the way: what every tag ends with,
   * and that no tag with a prefix is left.
   */
  lemma ValueInAllOrders(m: Tags, provider: string, v: Visits, y: string)
    requires !RepeatsOnTheWay(m, provider) && AreIterations(m, provider, v)
    ensures Lookup(Pruned(AfterGlobal(m, provider, v)), y) == if HasProvider(y) then None else TagValue(m, provider, y)
  {
    hide VisitAll, IsIteration, Parts, HasPrefix, Prefixed, RepeatsOnTheWay;
    NoRepeatsLater(m, provider, v);
    var a, b := AfterDevice(m, v), AfterProvider(m, provider, v);
    AfterTwoLoops(m, provider, v, y);
    AfterTwoLoops(m, provider, v, Prefixed(GLOBAL_PROVIDER, y));
    SetInAllOrders(b, GLOBAL_PROVIDER, v.global, y);
  }

  lemma AfterTwoLoops(m: Tags, provider: string, v: Visits, y: string)
    requires AreIterations(m, provider, v) && !Repeats(m, DEVICE_PROVIDER) && !Repeats(AfterDevice(m, v), provider)
    ensures Lookup(AfterProvider(m, provider, v), y) == ProviderValue(m, provider, y)
  {
    hide VisitAll, IsIteration, Parts, Prefixed;
    SetInAllOrders(m, DEVICE_PROVIDER, v.device, y);
    SetInAllOrders(m, DEVICE_PROVIDER, v.device, Prefixed(provider, y));
    SetInAllOrders(AfterDevice(m, v), provider, v.provider, y);
  }

  /** No tag behind a prefix has a prefix again. */
  ghost predicate NoNesting(m: Tags) {
    forall k :: k in m && Parts(k).Some? ==> !HasProvider(Parts(k).value.1)
  }

  lemma NestedIsNot(m: Tags, p: string, q: string, y: string)
    requires NoNesting(m) && ':' !in p
    ensures Prefixed(p, Prefixed(q, y)) !in m
  {
    hide Parts;
    PartsIff(Prefixed(p, Prefixed(q, y)), p, Prefixed(q, y));
    assert Prefixed(q, y)[..|PROVIDER_PREFIX|] == PROVIDER_PREFIX;
  }

  lemma NoNestingNoRepeats(m: Tags, provider: string)
    requires NoNesting(m)
    ensures !RepeatsOnTheWay(m, provider)
  {
    hide Parts;
    forall k | k in m ensures !RepeatsSomewhere(k, provider) {
      forall t: string, p: string ensures !HasProvider(t) ==> !Belongs(t, p) {
        if !HasProvider(t) {
          NotOfP(t, p);
        }
      }
    }
  }

  lemma PrefixedLevels(m: Tags, provider: string, y: string)
    ensures Level(m, DEVICE_PROVIDER, y) == Lookup(m, "provider:device:" + y)
    ensures Level(m, provider, y) == if ':' in provider then None else Lookup(m, "provider:" + provider + ":" + y)
    ensures Level(m, GLOBAL_PROVIDER, y) == Lookup(m, "provider:global:" + y)
  {
    hide Lookup;
    assert "provider:" + "device" + ":" + y == "provider:device:" + y;
    assert "provider:" + "global" + ":" + y == "provider:global:" + y;
  }

  /**
   * With no prefix behind a prefix, a tag ends with its plain value, or else that of the device, of its provider,
   * or of all devices, in this order.
   */
  lemma Precedence(m: Tags, provider: string, v: Visits, y: string)
    requires NoNesting(m) && AreIterations(m, provider, v)
    ensures Lookup(Pruned(AfterGlobal(m, provider, v)), y)
            == if HasProvider(y) then None
               else OrElse(Lookup(m, y), OrElse(Lookup(m, "provider:device:" + y),
                           OrElse(if ':' in provider then None else Lookup(m, "provider:" + provider + ":" + y),
                                  Lookup(m, "provider:global:" + y))))
  {
    PrefixedLevels(m, provider, y);
    hide VisitAll, IsIteration, Parts, HasPrefix, Prefixed, NoNesting, RepeatsOnTheWay;
    NoNestingNoRepeats(m, provider);
    ValueInAllOrders(m, provider, v, y);
    var g := Prefixed(GLOBAL_PROVIDER, y);
    NestedIsNot(m, DEVICE_PROVIDER, provider, y);
    NestedIsNot(m, DEVICE_PROVIDER, GLOBAL_PROVIDER, y);
    NestedIsNot(m, DEVICE_PROVIDER, provider, g);
    if ':' !in provider {
      NestedIsNot(m, provider, GLOBAL_PROVIDER, y);
    }
    if !HasProvider(y) {
      NotOfP(y, DEVICE_PROVIDER);
      NotOfP(y, provider);
      NotOfP(y, GLOBAL_PROVIDER);
    }
    PartsIff(g, GLOBAL_PROVIDER, y);
    PartsIff(Prefixed(provider, y), provider, y);
    PartsIff(Prefixed(provider, g), provider, g);
  }

  // ---------------------------------------------------------------- when the run depends on what it visits

  ghost predicate SameRun(m: Tags, provider: string, v: Visits, w: Visits) {
    && AfterDevice(m, v) == AfterDevice(m, w)
    && AfterProvider(m, provider, v) == AfterProvider(m, provider, w)
    && AfterGlobal(m, provider, v) == AfterGlobal(m, provider, w)
  }

  /** What is behind the prefix of a key is there after the loop. */
  lemma PeeledIsThere(m: Tags, p: string, visits: seq<string>, k: string)
    requires !Repeats(m, p) && IsIteration(m, p, visits) && k in m
    ensures Peel(k, p) in VisitAll(m, p, visits)
  {
    hide VisitAll, IsIteration, Parts, Prefixed;
    var y := Peel(k, p);
    assert !IsRepeated(k, p);
    SetInAllOrders(m, p, visits, y);
    PartsIff(k, p, y);
  }

  lemma SomeIteration(m: Tags, p: string) returns (visits: seq<string>)
    ensures IsIteration(m, p, visits)
  {
    visits := ListOf(m.Keys);
    EachOnce(m, p, visits);
  }

  /** Some visits of the later loops to go with those of the first. */
  lemma FromDevice(m: Tags, provider: string, device: seq<string>) returns (v: Visits)
    requires IsIteration(m, DEVICE_PROVIDER, device)
    ensures AreIterations(m, provider, v) && v.device == device
  {
    hide VisitAll, IsIteration;
    var visits := SomeIteration(VisitAll(m, DEVICE_PROVIDER, device), provider);
    v := FromProvider(m, provider, device, visits);
  }

  lemma FromProvider(m: Tags, provider: string, device: seq<string>, visits: seq<string>) returns (v: Visits)
    requires IsIteration(m, DEVICE_PROVIDER, device) && IsIteration(VisitAll(m, DEVICE_PROVIDER, device), provider, visits)
    ensures AreIterations(m, provider, v) && v.device == device && v.provider == visits
  {
    hide VisitAll, IsIteration;
    var global := SomeIteration(VisitAll(VisitAll(m, DEVICE_PROVIDER, device), provider, visits), GLOBAL_PROVIDER);
    v := Visits(device, visits, global);
  }

  lemma RunDiverges(m: Tags, provider: string, k: string) returns (v: Visits, w: Visits)
    requires k in m && RepeatsSomewhere(k, provider)
    ensures AreIterations(m, provider, v) && AreIterations(m, provider, w) && !SameRun(m, provider, v, w)
  {
    hide VisitAll, IsIteration, Peel, IsRepeated;
    if j :| j in m && IsRepeated(j, DEVICE_PROVIDER) {
      var a, b := RepeatDiverges(m, DEVICE_PROVIDER, j);
      v := FromDevice(m, provider, a);
      w := FromDevice(m, provider, b);
    } else {
      var device := SomeIteration(m, DEVICE_PROVIDER);
      var c := VisitAll(m, DEVICE_PROVIDER, device);
      PeeledIsThere(m, DEVICE_PROVIDER, device, k);
      if j :| j in c && IsRepeated(j, provider) {
        var a, b := RepeatDiverges(c, provider, j);
        v := FromProvider(m, provider, device, a);
        w := FromProvider(m, provider, device, b);
      } else {
        var visits := SomeIteration(c, provider);
        var d, j := VisitAll(c, provider, visits), Peel(k, DEVICE_PROVIDER);
        PeeledIsThere(c, provider, visits, j);
        var a, b := RepeatDiverges(d, GLOBAL_PROVIDER, Peel(j, provider));
        v, w := Visits(device, visits, a), Visits(device, visits, b);
      }
    }
  }

  /** All three loops leave the same maps whatever they visit exactly when no key repeats a prefix on the way. */
  lemma SameRunIff(m: Tags, provider: string)
    ensures (forall v, w :: AreIterations(m, provider, v) && AreIterations(m, provider, w) ==> SameRun(m, provider, v, w))
            <==> !RepeatsOnTheWay(m, provider)
  {
    hide AreIterations, SameRun, RepeatsSomewhere;
    if k :| k in m && RepeatsSomewhere(k, provider) {
      var v, w := RunDiverges(m, provider, k);
    } else {
      forall v, w | AreIterations(m, provider, v) && AreIterations(m, provider, w) ensures SameRun(m, provider, v, w) {
        WithoutRepeats(m, provider, v, w);
      }
    }
  }

  lemma WithoutRepeats(m: Tags, provider: string, v: Visits, w: Visits)
    requires !RepeatsOnTheWay(m, provider) && AreIterations(m, provider, v) && AreIterations(m, provider, w)
    ensures SameRun(m, provider, v, w)
  {
    hide VisitAll, IsIteration, Repeats, RepeatsOnTheWay;
    NoRepeatsLater(m, provider, v);
    SameInAllOrdersIff(m, DEVICE_PROVIDER);
    SameInAllOrdersIff(AfterDevice(m, v), provider);
    SameInAllOrdersIff(AfterProvider(m, provider, v), GLOBAL_PROVIDER);
  }

  /** Tags of a device that end in two ways: with a tag for all devices twice over. */
  lemma NestingDepends() returns (m: Tags, a: Visits, b: Visits)
    ensures AreIterations(m, "foo", a) && AreIterations(m, "foo", b)
    ensures Pruned(AfterGlobal(m, "foo", a)) != Pruned(AfterGlobal(m, "foo", b))
  {
    var inner := Prefixed(GLOBAL_PROVIDER, "x");
    var outer := Prefixed(GLOBAL_PROVIDER, inner);
    m := map[outer := "v"];
    a, b := Visits([outer], [outer], [outer]), Visits([outer], [outer], [outer, inner]);
    OnlyGlobal(m, outer, inner, a);
    OnlyGlobal(m, outer, inner, b);
    GlobalVisits(m, outer, inner);
    assert HasProvider(inner) && !HasProvider("x");
    assert Pruned(map[inner := "v"]) == map[];
    assert "x" in Pruned(map["x" := "v"]);
  }

  /** A key for all devices is not touched by the other two loops. */
  lemma OnlyGlobal(m: Tags, outer: string, inner: string, v: Visits)
    requires outer == Prefixed(GLOBAL_PROVIDER, inner) && m == map[outer := "v"]
    requires v.device == [outer] && v.provider == [outer]
    ensures IsIteration(m, DEVICE_PROVIDER, v.device) && AfterDevice(m, v) == m
    ensures IsIteration(m, "foo", v.provider) && AfterProvider(m, "foo", v) == m
  {
    hide Parts, Prefixed;
    PartsIff(outer, GLOBAL_PROVIDER, inner);
    assert GLOBAL_PROVIDER[0] != DEVICE_PROVIDER[0] && GLOBAL_PROVIDER[0] != "foo"[0];
    VisitOther(m, DEVICE_PROVIDER, outer);
    VisitOther(m, "foo", outer);
    assert [outer][..0] == [];
  }

  lemma GlobalVisits(m: Tags, outer: string, inner: string)
    requires inner == Prefixed(GLOBAL_PROVIDER, "x") && outer == Prefixed(GLOBAL_PROVIDER, inner) && m == map[outer := "v"]
    ensures IsIteration(m, GLOBAL_PROVIDER, [outer]) && VisitAll(m, GLOBAL_PROVIDER, [outer]) == map[inner := "v"]
    ensures IsIteration(m, GLOBAL_PROVIDER, [outer, inner]) && VisitAll(m, GLOBAL_PROVIDER, [outer, inner]) == map["x" := "v"]
  {
    hide Parts, Prefixed;
    PartsIff(outer, GLOBAL_PROVIDER, inner);
    PartsIff(inner, GLOBAL_PROVIDER, "x");
    assert [outer][..0] == [] && [outer, inner][..1] == [outer] && [outer, inner][..0] == [];
    assert Visit(m, GLOBAL_PROVIDER, outer) == map[inner := "v"];
    assert Visit(map[inner := "v"], GLOBAL_PROVIDER, inner) == map["x" := "v"];
  }
}
