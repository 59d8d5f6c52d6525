/** The answer of the match filter in all orders of its patterns, and exactly when it depends on the order. */
module MatchOrders {
  import opened RollupKeys
  import opened Sequences
  import opened MatchFilters

  // ---------------------------------------------------------------- what an entry is like

  /** The attribute takes part: it is not skipped, and there with a text. */
  predicate TestsAt(x: Subject, key: string) {
    !Skips(x, key) && key in x.attr && x.attr[key].Text?
  }

  predicate TestsAdmin(x: Subject, keys: seq<string>) {
    ADMIN_STATUS in keys && TestsAt(x, ADMIN_STATUS)
  }

  predicate AdminHit(x: Subject, re: string)
    requires TestsAt(x, ADMIN_STATUS)
  {
    x.matches(re, x.attr[ADMIN_STATUS].s)
  }

  predicate TestsIn(x: Subject, keys: seq<string>) {
    exists i :: 0 <= i < |keys| && keys[i] != ADMIN_STATUS && TestsAt(x, keys[i])
  }

  predicate MatchesIn(x: Subject, keys: seq<string>, re: string) {
    exists i :: 0 <= i < |keys| && keys[i] != ADMIN_STATUS && TestsAt(x, keys[i]) && x.matches(re, x.attr[keys[i]].s)
  }

  predicate SkipsAll(x: Subject, keys: seq<string>) {
    forall i :: 0 <= i < |keys| ==> Skips(x, keys[i])
  }

  /** Forced, none of its attributes is there, and not all of them are skipped. */
  predicate IsMissing(x: Subject, k: string) {
    !IsNegate(k) && IsForced(k) && !SeesAny(x, KeysOf(k)) && !SkipsAll(x, KeysOf(k))
  }

  function Last(keys: seq<string>): string
    requires keys != []
  {
    keys[|keys| - 1]
  }

  /**
   * The ways an entry can count. Halting: its last attribute is the admin status, which does not match.
   * Blocking: the admin status does not match but is not the last. Clearing: it matches.
   * Biting: missing, and its last attribute is not skipped. Resetting: missing, but the last one is skipped.
   * Testing, Matching: some other attribute takes part, or matches.
   */
  datatype Kind = Halting | Blocking | Clearing | Biting | Resetting | Testing | Matching | Negating

  predicate Counts(x: Subject, kind: Kind, k: string, re: string) {
    var keys := KeysOf(k);
    if IsNegate(k) then kind.Negating?
    else
      match kind
      case Halting => TestsAdmin(x, keys) && !AdminHit(x, re) && Last(keys) == ADMIN_STATUS
      case Blocking => TestsAdmin(x, keys) && !AdminHit(x, re) && Last(keys) != ADMIN_STATUS
      case Clearing => TestsAdmin(x, keys) && AdminHit(x, re)
      case Biting => IsMissing(x, k) && !Skips(x, Last(keys))
      case Resetting => IsMissing(x, k) && Skips(x, Last(keys))
      case Testing => TestsIn(x, keys)
      case Matching => MatchesIn(x, keys, re)
      case Negating => false
  }

  // ---------------------------------------------------------------- what an entry does

  lemma LastIn(x: Subject, keys: seq<string>, re: string)
    requires keys != []
    ensures var (before, last) := (keys[..|keys| - 1], Last(keys));
            && (TestsAdmin(x, keys) <==> TestsAdmin(x, before) || (last == ADMIN_STATUS && TestsAt(x, last)))
            && (TestsIn(x, keys) <==> TestsIn(x, before) || (last != ADMIN_STATUS && TestsAt(x, last)))
            && (MatchesIn(x, keys, re) <==>
                MatchesIn(x, before, re)
                || (last != ADMIN_STATUS && TestsAt(x, last) && x.matches(re, x.attr[last].s)))
  {
    hide TestsAt;
    assert keys == keys[..|keys| - 1] + [Last(keys)];
  }

  lemma {:induction false} CheckedPresent(x: Subject, keys: seq<string>, re: string, s: State)
    requires !s.stop
    ensures var t := CheckedAll(x, keys, re, false, s);
            && t.negateMatch == s.negateMatch
            && t.dropOnAdminStatus == (if TestsAdmin(x, keys) then !AdminHit(x, re) else s.dropOnAdminStatus)
            && t.stop == (TestsAdmin(x, keys) && !AdminHit(x, re) && Last(keys) == ADMIN_STATUS)
            && (t.seenNonAdmin > 0 <==> s.seenNonAdmin > 0 || TestsIn(x, keys))
            && (t.keepForOtherMatch <==> s.keepForOtherMatch || MatchesIn(x, keys, re))
  {
    hide Skips;
    if keys != [] {
      var n := |keys| - 1;
      CheckedPresent(x, keys[..n], re, s);
      LastIn(x, keys, re);
      hide TestsAdmin, TestsIn, MatchesIn;
    }
  }

  lemma {:induction false} CheckedAbsent(x: Subject, keys: seq<string>, re: string, s: State)
    requires !SeesAny(x, keys) && !s.stop
    ensures var t := CheckedAll(x, keys, re, true, s);
            && t.dropOnAdminStatus == s.dropOnAdminStatus && t.negateMatch == s.negateMatch
            && t.stop == (keys != [] && !Skips(x, Last(keys)))
            && if SkipsAll(x, keys) then t == s else t.seenNonAdmin > 0 && !t.keepForOtherMatch
  {
    hide Skips;
    if keys != [] {
      var n := |keys| - 1;
      CheckedAbsent(x, keys[..n], re, s);
    }
  }

  /** What one entry does to a state that has not stopped. */
  lemma EnteredEffect(x: Subject, k: string, re: string, s: State)
    requires !s.stop
    ensures var t := Entered(x, k, re, s);
            && t.negateMatch == (s.negateMatch || Counts(x, Negating, k, re))
            && t.dropOnAdminStatus == (if Counts(x, Halting, k, re) || Counts(x, Blocking, k, re) then true
                                       else if Counts(x, Clearing, k, re) then false else s.dropOnAdminStatus)
            && t.stop == (Counts(x, Halting, k, re) || Counts(x, Biting, k, re))
            && (t.seenNonAdmin > 0 <==>
                s.seenNonAdmin > 0 || Counts(x, Testing, k, re) || Counts(x, Biting, k, re) || Counts(x, Resetting, k, re))
            && (t.keepForOtherMatch <==>
                && !Counts(x, Biting, k, re) && !Counts(x, Resetting, k, re)
                && (s.keepForOtherMatch || Counts(x, Matching, k, re)))
  {
    hide Skips, Unforced, IsForced, CheckedAll;
    var keys := KeysOf(k);
    if !IsNegate(k) {
      if IsForced(k) && !SeesAny(x, keys) {
        CheckedAbsent(x, keys, re, s);
        AbsentTestsNothing(x, keys, re);
      } else {
        CheckedPresent(x, keys, re, s);
      }
    }
  }

  lemma AbsentTestsNothing(x: Subject, keys: seq<string>, re: string)
    requires !SeesAny(x, keys)
    ensures !TestsAdmin(x, keys) && !TestsIn(x, keys) && !MatchesIn(x, keys, re)
  {
  }

  /** A missing entry, and one that negates, does nothing else. */
  lemma KindsExclude(x: Subject, k: string, re: string)
    ensures Counts(x, Biting, k, re) || Counts(x, Resetting, k, re) ==>
              && !Counts(x, Halting, k, re) && !Counts(x, Blocking, k, re) && !Counts(x, Clearing, k, re)
              && !Counts(x, Testing, k, re) && !Counts(x, Matching, k, re) && !Counts(x, Negating, k, re)
    ensures Counts(x, Clearing, k, re) ==> !Counts(x, Halting, k, re) && !Counts(x, Blocking, k, re)
    ensures Counts(x, Matching, k, re) ==> Counts(x, Testing, k, re)
  {
    hide TestsAdmin, TestsIn, KeysOf, Skips, SkipsAll;
    if !SeesAny(x, KeysOf(k)) {
      AbsentTestsNothing(x, KeysOf(k), re);
    }
    MatchesTest(x, KeysOf(k), re);
  }

  lemma MatchesTest(x: Subject, keys: seq<string>, re: string)
    ensures MatchesIn(x, keys, re) ==> TestsIn(x, keys)
  {
  }

  // ---------------------------------------------------------------- the loop through an order

  predicate IsKind(x: Subject, patterns: map<string, string>, kind: Kind, k: string) {
    k in patterns && Counts(x, kind, k, patterns[k])
  }

  ghost predicate Has(x: Subject, patterns: map<string, string>, kind: Kind, order: seq<string>) {
    exists k :: k in order && IsKind(x, patterns, kind, k)
  }

  lemma HasStep(x: Subject, patterns: map<string, string>, kind: Kind, order: seq<string>, k: string)
    ensures Has(x, patterns, kind, order + [k]) <==> Has(x, patterns, kind, order) || IsKind(x, patterns, kind, k)
  {
    hide IsKind;
    assert k in order + [k];
    if Has(x, patterns, kind, order) {
      var j :| j in order && IsKind(x, patterns, kind, j);
      assert j in order + [k];
    }
  }

  /** Where the loop is after some entries. */
  ghost predicate Walked(x: Subject, patterns: map<string, string>, order: seq<string>, s: State) {
    && (s.negateMatch ==> Has(x, patterns, Negating, order))
    && (s.dropOnAdminStatus ==> Has(x, patterns, Halting, order) || Has(x, patterns, Blocking, order))
    && (s.stop ==> Has(x, patterns, Halting, order) || Has(x, patterns, Biting, order))
    && (s.stop && !s.dropOnAdminStatus ==> Has(x, patterns, Biting, order) && s.seenNonAdmin > 0 && !s.keepForOtherMatch)
    && (!s.stop ==>
          && !Has(x, patterns, Halting, order) && !Has(x, patterns, Biting, order)
          && (Has(x, patterns, Negating, order) ==> s.negateMatch)
          && (Has(x, patterns, Blocking, order) && !Has(x, patterns, Clearing, order) ==> s.dropOnAdminStatus)
          && (s.seenNonAdmin > 0 <==> Has(x, patterns, Testing, order) || Has(x, patterns, Resetting, order))
          && (s.keepForOtherMatch ==> Has(x, patterns, Matching, order))
          && (Has(x, patterns, Matching, order) && !Has(x, patterns, Resetting, order) ==> s.keepForOtherMatch))
  }

  lemma WalkStep(x: Subject, patterns: map<string, string>, before: seq<string>, k: string, s: State)
    requires k in patterns && Walked(x, patterns, before, s)
    ensures Walked(x, patterns, before + [k], if s.stop then s else Entered(x, k, patterns[k], s))
  {
    hide Has, Entered, Counts;
    HasStep(x, patterns, Halting, before, k);
    HasStep(x, patterns, Blocking, before, k);
    HasStep(x, patterns, Clearing, before, k);
    HasStep(x, patterns, Biting, before, k);
    HasStep(x, patterns, Resetting, before, k);
    HasStep(x, patterns, Testing, before, k);
    HasStep(x, patterns, Matching, before, k);
    HasStep(x, patterns, Negating, before, k);
    if !s.stop {
      EnteredEffect(x, k, patterns[k], s);
      KindsExclude(x, k, patterns[k]);
    }
  }

  lemma {:induction false} Walks(x: Subject, patterns: map<string, string>, order: seq<string>)
    requires forall k :: k in order ==> k in patterns
    ensures Walked(x, patterns, order, Visited(x, patterns, order))
  {
    if order == [] {
      hide IsKind;
    } else {
      hide Walked, Visited;
      var n := |order| - 1;
      assert order == order[..n] + [order[n]];
      Walks(x, patterns, order[..n]);
      VisitedStep(x, patterns, order[..n], order[n]);
      WalkStep(x, patterns, order[..n], order[n], Visited(x, patterns, order[..n]));
    }
  }

  // ---------------------------------------------------------------- all orders

  ghost predicate Any(x: Subject, patterns: map<string, string>, kind: Kind) {
    exists k :: IsKind(x, patterns, kind, k)
  }

  lemma AnyIsHas(x: Subject, patterns: map<string, string>, order: seq<string>)
    requires Lists(order, patterns.Keys)
    ensures forall kind :: Any(x, patterns, kind) <==> Has(x, patterns, kind, order)
  {
    hide Counts;
    forall kind ensures Any(x, patterns, kind) <==> Has(x, patterns, kind, order) {
      if k :| IsKind(x, patterns, kind, k) {
        assert k in order;
      }
    }
  }

  /** Without the admin status: something took part and nothing matched, turned around by a negate entry. */
  ghost predicate Unmatched(x: Subject, patterns: map<string, string>) {
    ((Any(x, patterns, Testing) || Any(x, patterns, Resetting)) && !Any(x, patterns, Matching)) != Any(x, patterns, Negating)
  }

  /** What drops a flow, in every order if it does not depend on the order. */
  ghost predicate Drops(x: Subject, patterns: map<string, string>) {
    || Any(x, patterns, Halting)
    || Any(x, patterns, Blocking)
    || Any(x, patterns, Biting)
    || Unmatched(x, patterns)
  }

  /**
   * When the answer depends on the order: a missing forced entry that stops the loop meets a negate entry. Without
   * one, and without an admin status that stops it: a mismatch of the admin status can come before or after a match
   * of it, where the other attributes keep the flow, or a match before or after an entry that resets it.
   */
  ghost predicate DependsOnOrder(x: Subject, patterns: map<string, string>) {
    if Any(x, patterns, Biting) then Any(x, patterns, Negating)
    else if Any(x, patterns, Halting) then false
    else if Any(x, patterns, Blocking) then Any(x, patterns, Clearing) && !Unmatched(x, patterns)
    else Any(x, patterns, Resetting) && Any(x, patterns, Matching)
  }

  lemma SameInAllOrders(x: Subject, patterns: map<string, string>, order: seq<string>)
    requires Lists(order, patterns.Keys) && !DependsOnOrder(x, patterns)
    ensures Answer(Visited(x, patterns, order)) == Drops(x, patterns)
  {
    hide Visited, Has, Any;
    Walks(x, patterns, order);
    AnyIsHas(x, patterns, order);
    AdminNeverMeetsReset(x, patterns);
    MatchingTests(x, patterns);
  }

  /** The admin status counts only for a metric of an interface, and a reset only for any other. */
  lemma AdminNeverMeetsReset(x: Subject, patterns: map<string, string>)
    ensures Any(x, patterns, Halting) || Any(x, patterns, Blocking) || Any(x, patterns, Clearing) ==> !Any(x, patterns, Resetting)
  {
    hide KeysOf, IsForced, IsNegate, SeesAny, SkipsAll;
  }

  lemma MatchingTests(x: Subject, patterns: map<string, string>)
    ensures Any(x, patterns, Matching) ==> Any(x, patterns, Testing)
  {
    hide Counts;
    if k :| IsKind(x, patterns, Matching, k) {
      KindsExclude(x, k, patterns[k]);
      assert IsKind(x, patterns, Testing, k);
    }
  }

  // ---------------------------------------------------------------- orders that disagree

  ghost predicate Disagree(x: Subject, patterns: map<string, string>, a: seq<string>, b: seq<string>) {
    && Lists(a, patterns.Keys) && Lists(b, patterns.Keys)
    && Answer(Visited(x, patterns, a)) != Answer(Visited(x, patterns, b))
  }

  /** A missing forced entry first: dropped. After a negate entry: kept. */
  lemma NegateOrForcedFirst(x: Subject, patterns: map<string, string>, forced: string, negate: string)
      returns (a: seq<string>, b: seq<string>)
    requires IsKind(x, patterns, Biting, forced) && IsKind(x, patterns, Negating, negate)
    ensures Disagree(x, patterns, a, b)
  {
    hide Visited, Answer, Counts;
    KindsExclude(x, forced, patterns[forced]);
    var rest := ListOf(patterns.Keys - {forced, negate});
    a, b := [forced, negate] + rest, [negate, forced] + rest;
    ListsConcat([forced, negate], rest, {forced, negate}, patterns.Keys - {forced, negate});
    ListsConcat([negate, forced], rest, {forced, negate}, patterns.Keys - {forced, negate});
    assert {forced, negate} + (patterns.Keys - {forced, negate}) == patterns.Keys;
    ForcedFirst(x, patterns, forced);
    StopsFor(x, patterns, [forced], [negate] + rest);
    assert a == [forced] + ([negate] + rest);
    ForcedAfterNegate(x, patterns, forced, negate);
    StopsFor(x, patterns, [negate, forced], rest);
  }

  lemma ForcedFirst(x: Subject, patterns: map<string, string>, forced: string)
    requires IsKind(x, patterns, Biting, forced)
    ensures Visited(x, patterns, [forced]).stop && Answer(Visited(x, patterns, [forced]))
  {
    hide Entered, Counts, Visited;
    VisitedStep(x, patterns, [], forced);
    NothingSeen(x, patterns);
    assert [] + [forced] == [forced];
    EnteredEffect(x, forced, patterns[forced], START);
    KindsExclude(x, forced, patterns[forced]);
  }

  lemma ForcedAfterNegate(x: Subject, patterns: map<string, string>, forced: string, negate: string)
    requires IsKind(x, patterns, Biting, forced) && IsKind(x, patterns, Negating, negate)
    ensures Visited(x, patterns, [negate, forced]).stop && !Answer(Visited(x, patterns, [negate, forced]))
  {
    hide Visited, CheckedAll, IsMissing;
    VisitedStep(x, patterns, [], negate);
    VisitedStep(x, patterns, [negate], forced);
    NothingSeen(x, patterns);
    assert [] + [negate] == [negate] && [negate] + [forced] == [negate, forced];
    EnteredEffect(x, forced, patterns[forced], START.(negateMatch := true));
    KindsExclude(x, forced, patterns[forced]);
  }

  /** An order that ends with a given entry, and the state before that. */
  lemma EndingWith(x: Subject, patterns: map<string, string>, k: string) returns (order: seq<string>, s: State)
    requires k in patterns && !Any(x, patterns, Halting) && !Any(x, patterns, Biting)
    ensures Lists(order, patterns.Keys) && Walked(x, patterns, order, Visited(x, patterns, order))
    ensures !s.stop && !Visited(x, patterns, order).stop && Visited(x, patterns, order) == Entered(x, k, patterns[k], s)
  {
    hide Visited, Walked, Entered, Counts;
    var before := ListOf(patterns.Keys - {k});
    order := before + [k];
    ListsSnoc(before, patterns.Keys - {k}, k);
    assert patterns.Keys - {k} + {k} == patterns.Keys;
    NeverStops(x, patterns, before);
    VisitedStep(x, patterns, before, k);
    NeverStops(x, patterns, order);
    Walks(x, patterns, order);
    s := Visited(x, patterns, before);
  }

  lemma NeverStops(x: Subject, patterns: map<string, string>, order: seq<string>)
    requires !Any(x, patterns, Halting) && !Any(x, patterns, Biting) && forall k :: k in order ==> k in patterns
    ensures !Visited(x, patterns, order).stop
  {
    hide Visited, IsKind;
    Walks(x, patterns, order);
  }

  /** A match last keeps the flow, a reset last does not. */
  lemma MatchOrResetLast(x: Subject, patterns: map<string, string>, reset: string, matching: string)
      returns (a: seq<string>, b: seq<string>)
    requires IsKind(x, patterns, Resetting, reset) && IsKind(x, patterns, Matching, matching)
    requires !Any(x, patterns, Halting) && !Any(x, patterns, Biting) && !Any(x, patterns, Blocking)
    ensures Disagree(x, patterns, a, b)
  {
    hide Visited, Entered, Counts, Has, Any;
    var s, t;
    a, s := EndingWith(x, patterns, reset);
    b, t := EndingWith(x, patterns, matching);
    EnteredEffect(x, reset, patterns[reset], s);
    EnteredEffect(x, matching, patterns[matching], t);
    KindsExclude(x, matching, patterns[matching]);
    AnyIsHas(x, patterns, a);
    AnyIsHas(x, patterns, b);
    IsSome(x, patterns, Resetting, reset);
  }

  lemma IsSome(x: Subject, patterns: map<string, string>, kind: Kind, k: string)
    requires IsKind(x, patterns, kind, k)
    ensures Any(x, patterns, kind)
  {
  }

  /** A mismatch of the admin status last drops the flow. */
  lemma BlockingLast(x: Subject, patterns: map<string, string>, blocking: string) returns (order: seq<string>)
    requires IsKind(x, patterns, Blocking, blocking) && !Any(x, patterns, Halting) && !Any(x, patterns, Biting)
    ensures Lists(order, patterns.Keys) && Answer(Visited(x, patterns, order))
  {
    hide Visited, Entered, Counts, Walked, Any;
    var s;
    order, s := EndingWith(x, patterns, blocking);
    EnteredEffect(x, blocking, patterns[blocking], s);
  }

  /** A match of the admin status last leaves the answer to the other attributes. */
  lemma ClearingLast(x: Subject, patterns: map<string, string>, clearing: string) returns (order: seq<string>)
    requires IsKind(x, patterns, Clearing, clearing) && !Any(x, patterns, Halting) && !Any(x, patterns, Biting)
    requires !Unmatched(x, patterns)
    ensures Lists(order, patterns.Keys) && !Answer(Visited(x, patterns, order))
  {
    hide Visited, Entered, Counts, Has, Any;
    var s;
    order, s := EndingWith(x, patterns, clearing);
    EnteredEffect(x, clearing, patterns[clearing], s);
    KindsExclude(x, clearing, patterns[clearing]);
    AdminNeverMeetsReset(x, patterns);
    IsSome(x, patterns, Clearing, clearing);
    AnyIsHas(x, patterns, order);
    MatchingTests(x, patterns);
  }

  lemma Disagreement(x: Subject, patterns: map<string, string>) returns (a: seq<string>, b: seq<string>)
    requires DependsOnOrder(x, patterns)
    ensures Disagree(x, patterns, a, b)
  {
    hide IsKind, Answer, Visited, Unmatched;
    if Any(x, patterns, Biting) {
      var forced :| IsKind(x, patterns, Biting, forced);
      var negate :| IsKind(x, patterns, Negating, negate);
      a, b := NegateOrForcedFirst(x, patterns, forced, negate);
    } else if Any(x, patterns, Blocking) {
      var blocking :| IsKind(x, patterns, Blocking, blocking);
      var clearing :| IsKind(x, patterns, Clearing, clearing);
      a := BlockingLast(x, patterns, blocking);
      b := ClearingLast(x, patterns, clearing);
    } else {
      var reset :| IsKind(x, patterns, Resetting, reset);
      var matching :| IsKind(x, patterns, Matching, matching);
      a, b := MatchOrResetLast(x, patterns, reset, matching);
    }
  }

  /** For all patterns and attributes: two orders of the map disagree exactly under DependsOnOrder. */
  lemma OrderMattersIff(x: Subject, patterns: map<string, string>)
    ensures (exists a, b :: Disagree(x, patterns, a, b)) <==> DependsOnOrder(x, patterns)
  {
    hide DependsOnOrder, Visited, Answer;
    if DependsOnOrder(x, patterns) {
      var a, b := Disagreement(x, patterns);
    } else {
      forall a, b ensures !Disagree(x, patterns, a, b) {
        if Lists(a, patterns.Keys) && Lists(b, patterns.Keys) {
          SameInAllOrders(x, patterns, a);
          SameInAllOrders(x, patterns, b);
        }
      }
    }
  }

  // ---------------------------------------------------------------- one input for each

  lemma NoBars(k: string)
    requires '|' !in k
    ensures Split(k, OR_TOKEN) == [k] && !Contains(k, OR_TOKEN)
  {
    forall i: nat ensures !OccursAt(k, OR_TOKEN, i) {
      if i + 2 <= |k| {
        assert k[i..i + 2][0] == k[i];
      }
    }
    SplitOne(k, OR_TOKEN);
  }

  lemma TwoParts(a: string, b: string)
    requires '|' !in a && '|' !in b
    ensures Split(a + OR_TOKEN + b, OR_TOKEN) == [a, b]
  {
    NoBars(b);
    forall i: nat | i < |a| ensures !OccursAt(a + OR_TOKEN, OR_TOKEN, i) {
      assert (a + OR_TOKEN)[i..i + 2][0] == a[i];
    }
    assert [a, b][1..] == [b] && Join([b], OR_TOKEN) == b;
    SplitJoinIff([a, b], OR_TOKEN);
  }

  /** The attributes a name stands for when it has no prefix and no parentheses. */
  lemma NameOf(k: string)
    requires k != "" && k[0] != '!' && k[0] != '('
    ensures !IsForced(k) && Unforced(k) == k && KeysOf(k) == Split(k, OR_TOKEN)
  {
    assert k[..1][0] != FORCE_MATCH_TOKEN[0] && k[..1][0] != "("[0];
  }

  lemma ForcedKeys(name: string, keys: seq<string>)
    requires name != "" && name != NEGATE_MATCH_TOKEN
    requires if name[0] == '(' then name[|name| - 1] == ')' && keys == Split(name[1..|name| - 1], OR_TOKEN) else keys == [name] && '|' !in name
    requires |name| >= 2 || name[0] != '('
    ensures KeysOf("!" + name) == keys && IsForced("!" + name) && !IsNegate("!" + name)
  {
    assert ("!" + name)[1..] == name && ("!" + name)[..1] == "!";
    assert name[..1][0] == name[0];
    if name[0] != '(' {
      NoBars(name);
    } else {
      assert name[..1] == "(";
    }
  }

  lemma ForcedAlone(x: Subject)
    requires x.attr == map[] && x.isIfMetric
    ensures Counts(x, Biting, "!a", "")
  {
    hide KeysOf, IsForced;
    ForcedKeys("a", ["a"]);
    assert "!" + "a" == "!a" && Last(["a"]) == "a";
  }

  lemma NegateAlone(x: Subject)
    ensures Counts(x, Negating, NEGATE_MATCH_TOKEN, "")
  {
    hide KeysOf;
    NameOf(NEGATE_MATCH_TOKEN);
  }

  /** A forced entry and a negate entry, on a metric without attributes. */
  lemma NegateMeetsForced() returns (x: Subject, patterns: map<string, string>, a: seq<string>, b: seq<string>)
    ensures Disagree(x, patterns, a, b)
  {
    hide Counts, Disagree;
    x, patterns := Subject(map[], true, (re, s) => true), map["!a" := "", NEGATE_MATCH_TOKEN := ""];
    ForcedAlone(x);
    NegateAlone(x);
    a, b := NegateOrForcedFirst(x, patterns, "!a", NEGATE_MATCH_TOKEN);
  }

  lemma ResetAlone(x: Subject)
    requires "a" !in x.attr && "if_x" !in x.attr && !x.isIfMetric
    ensures Counts(x, Resetting, "!(a||if_x)", "")
  {
    hide KeysOf, IsForced, Split, Skips;
    var name, keys := "(a||if_x)", ["a", "if_x"];
    TwoParts("a", "if_x");
    assert name[1..|name| - 1] == "a" + OR_TOKEN + "if_x";
    ForcedKeys(name, keys);
    assert "!" + name == "!(a||if_x)";
    assert keys[0] == "a" && Last(keys) == "if_x";
    SkippedOnly(x);
  }

  lemma SkippedOnly(x: Subject)
    requires !x.isIfMetric
    ensures !Skips(x, "a") && Skips(x, "if_x")
  {
    assert "if_x"[..3] == "if_";
  }

  lemma MatchAlone(x: Subject)
    requires x.attr == map["b" := Text("")] && x.matches("", "")
    ensures Counts(x, Matching, "b", "")
    ensures !Counts(x, Halting, "b", "") && !Counts(x, Biting, "b", "") && !Counts(x, Blocking, "b", "")
  {
    hide KeysOf, IsForced;
    NameOf("b");
    NoBars("b");
    assert |"b"| != |NEGATE_MATCH_TOKEN| && |"b"| != |ADMIN_STATUS| && ["b"][0] == "b";
    assert TestsAt(x, "b");
  }

  /** A forced entry that ends in a skipped attribute and an entry that matches, on a metric that is not one of an interface. */
  lemma ResetMeetsMatch() returns (x: Subject, patterns: map<string, string>, a: seq<string>, b: seq<string>)
    ensures Disagree(x, patterns, a, b)
  {
    hide Counts, Disagree;
    x := Subject(map["b" := Text("")], false, (re, s) => true);
    patterns := map["!(a||if_x)" := "", "b" := ""];
    ResetAlone(x);
    MatchAlone(x);
    KindsExclude(x, "!(a||if_x)", "");
    ResetNotBites(x, "!(a||if_x)", "");
    a, b := MatchOrResetLast(x, patterns, "!(a||if_x)", "b");
  }

  lemma ResetNotBites(x: Subject, k: string, re: string)
    ensures !(Counts(x, Resetting, k, re) && Counts(x, Biting, k, re))
  {
  }

  lemma AdminAlone(x: Subject)
    requires x.attr == map[ADMIN_STATUS := Text("up")] && x.isIfMetric && x.matches == ((re, s) => re == s)
    ensures Counts(x, Clearing, ADMIN_STATUS, "up")
    ensures forall kind :: kind != Clearing ==> !Counts(x, kind, ADMIN_STATUS, "up")
  {
    hide KeysOf, IsForced, Split;
    NameOf(ADMIN_STATUS);
    NoBars(ADMIN_STATUS);
    assert [ADMIN_STATUS][0] == ADMIN_STATUS && |ADMIN_STATUS| == |NEGATE_MATCH_TOKEN| && ADMIN_STATUS[0] != NEGATE_MATCH_TOKEN[0];
  }

  lemma AdminInGroup(x: Subject, k: string)
    requires x.attr == map[ADMIN_STATUS := Text("up")] && x.isIfMetric && x.matches == ((re, s) => re == s)
    requires k == "if_AdminStatus||c"
    ensures Counts(x, Blocking, k, "down")
    ensures forall kind :: kind != Blocking ==> !Counts(x, kind, k, "down")
  {
    hide KeysOf, IsForced;
    assert ADMIN_STATUS + OR_TOKEN + "c" == k;
    TwoParts(ADMIN_STATUS, "c");
    NameOf(k);
    var keys := [ADMIN_STATUS, "c"];
    assert ADMIN_STATUS == keys[0] && Last(keys) == "c" && |"c"| != |ADMIN_STATUS|;
    assert |k| != |NEGATE_MATCH_TOKEN|;
  }

  /** The admin status in two entries, one of which matches, on a metric of an interface. */
  lemma AdminBothWays() returns (x: Subject, patterns: map<string, string>, a: seq<string>, b: seq<string>)
    ensures Disagree(x, patterns, a, b)
  {
    hide Counts, Disagree;
    x := Subject(map[ADMIN_STATUS := Text("up")], true, (re, s) => re == s);
    patterns := map["if_AdminStatus||c" := "down", ADMIN_STATUS := "up"];
    AdminAlone(x);
    AdminInGroup(x, "if_AdminStatus||c");
    assert IsKind(x, patterns, Blocking, "if_AdminStatus||c") && IsKind(x, patterns, Clearing, ADMIN_STATUS);
    a, b := Disagreement(x, patterns);
  }
}
