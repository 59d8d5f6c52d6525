/**
 * The match filter on metadata attributes: one state carried through the entries of a map, in whatever
 * order the map gives them.
 */
module MatchFilters {
  import opened RollupKeys
  import opened Sequences

  datatype Attribute = Text(s: string) | OtherValue

  /** The attributes of a metric, whether it is one of an interface, and what a pattern matches. */
  datatype Subject = Subject(attr: map<string, Attribute>, isIfMetric: bool, matches: (string, string) -> bool)

  const FORCE_MATCH_TOKEN := "!"
  const OR_TOKEN := "||"
  const NEGATE_MATCH_TOKEN := "DOES_NOT_MATCH"
  const ADMIN_STATUS := "if_AdminStatus"

  // ---------------------------------------------------------------- entries

  predicate IsForced(k: string) {
    HasPrefix(k, FORCE_MATCH_TOKEN)
  }

  function Unforced(k: string): string {
    if IsForced(k) then k[1..] else k
  }

  predicate IsNegate(k: string) {
    Unforced(k) == NEGATE_MATCH_TOKEN
  }

  /** The attributes an entry names, any of which may match. */
  function KeysOf(k: string): (keys: seq<string>)
    ensures keys != []
  {
    var name := Unforced(k);
    var inner := if HasPrefix(name, "(") && name[|name| - 1] == ')' then name[1..|name| - 1] else name;
    Split(inner, OR_TOKEN)
  }

  /** Interface attributes are skipped for a metric that is not one of an interface. */
  predicate Skips(x: Subject, key: string) {
    && !x.isIfMetric
    && (key == ADMIN_STATUS || HasPrefix(key, "if_") || HasPrefix(key, "input_if_") || HasPrefix(key, "output_if_"))
  }

  predicate SeesAny(x: Subject, keys: seq<string>) {
    exists i :: 0 <= i < |keys| && keys[i] in x.attr
  }

  /** What the name of an entry says: "!" forces it, and "DOES_NOT_MATCH" negates, forced or not. */
  lemma ForcedIff(name: string)
    ensures IsForced("!" + name) && Unforced("!" + name) == name
    ensures IsForced(name) <==> exists rest :: name == "!" + rest
    ensures IsNegate(name) <==> name == "DOES_NOT_MATCH" || name == "!DOES_NOT_MATCH"
  {
    assert ("!" + name)[1..] == name && ("!" + name)[..1] == "!";
    PrefixIff(name, "!");
    if IsForced(name) {
      assert name == "!" + name[1..];
    }
    var forced := "!" + "DOES_NOT_MATCH";
    assert forced == "!DOES_NOT_MATCH" && forced[1..] == "DOES_NOT_MATCH" && "DOES_NOT_MATCH"[0] == 'D';
  }

  /** The attributes stand between bars, in parentheses or not, behind an "!" or not. */
  lemma AttributesOf(name: string, inner: string)
    ensures !IsForced(name) ==> KeysOf("!" + name) == KeysOf(name)
    ensures KeysOf("(" + inner + ")") == Split(inner, "||")
    ensures !IsForced(name) && !(exists x :: name == "(" + x + ")") ==> KeysOf(name) == Split(name, "||")
  {
    hide Split, IsForced, HasPrefix;
    InParentheses(inner);
    if !IsForced(name) {
      BehindForce(name);
      if !(exists x :: name == "(" + x + ")") {
        WithoutParentheses(name);
      }
    }
    hide KeysOf;
  }

  lemma BehindForce(name: string)
    requires !IsForced(name)
    ensures KeysOf("!" + name) == KeysOf(name)
  {
    hide Split;
    ForcedIff(name);
  }

  lemma WithoutParentheses(name: string)
    requires !IsForced(name) && !(exists x :: name == "(" + x + ")")
    ensures KeysOf(name) == Split(name, "||")
  {
    hide Split, IsForced, HasPrefix;
    ParenthesesIff(name);
  }

  lemma ParenthesesIff(name: string)
    ensures HasPrefix(name, "(") && name[|name| - 1] == ')' <==> exists x :: name == "(" + x + ")"
  {
    if HasPrefix(name, "(") && name[|name| - 1] == ')' {
      var last := |name| - 1;
      assert name[..1] == "(" && name[0] == '(';
      assert name == name[..1] + name[1..last] + name[last..];
      assert name[last..] == ")";
    }
    if x :| name == "(" + x + ")" {
      assert name[..1] == "(" && name[|name| - 1] == ')';
    }
  }

  lemma InParentheses(inner: string)
    ensures KeysOf("(" + inner + ")") == Split(inner, "||")
  {
    hide Split;
    var group := "(" + inner + ")";
    assert group[..1] == "(" && group[1..|group| - 1] == inner;
  }

  // ---------------------------------------------------------------- the state carried through

  datatype State = State(dropOnAdminStatus: bool, keepForOtherMatch: bool, seenNonAdmin: nat, negateMatch: bool, stop: bool)

  const START := State(false, false, 0, false, false)

  /** checkFilter: one attribute of an entry; `absent` says that the entry is forced and none of its attributes is there. */
  function Checked(x: Subject, key: string, re: string, absent: bool, s: State): State {
    if Skips(x, key) then s.(stop := false)
    else if key in x.attr then
      if x.attr[key].Text? then
        var hit := x.matches(re, x.attr[key].s);
        if key == ADMIN_STATUS then s.(dropOnAdminStatus := !hit, stop := !hit)
        else
          var keep := s.keepForOtherMatch || hit;
          s.(seenNonAdmin := s.seenNonAdmin + 1, keepForOtherMatch := keep, stop := !keep && absent)
      else s.(stop := false)
    else if absent then s.(seenNonAdmin := s.seenNonAdmin + 1, keepForOtherMatch := false, stop := true)
    else s.(stop := false)
  }

  /** All attributes of an entry; the last one decides whether to stop. */
  function CheckedAll(x: Subject, keys: seq<string>, re: string, absent: bool, s: State): State {
    if keys == [] then s
    else Checked(x, keys[|keys| - 1], re, absent, CheckedAll(x, keys[..|keys| - 1], re, absent, s))
  }

  function Entered(x: Subject, k: string, re: string, s: State): State {
    if IsNegate(k) then s.(negateMatch := true)
    else CheckedAll(x, KeysOf(k), re, IsForced(k) && !SeesAny(x, KeysOf(k)), s)
  }

  function Visited(x: Subject, patterns: map<string, string>, order: seq<string>): State {
    if order == [] then START
    else
      var s, k := Visited(x, patterns, order[..|order| - 1]), order[|order| - 1];
      if s.stop then s else Entered(x, k, if k in patterns then patterns[k] else "", s)
  }

  predicate Answer(s: State) {
    if s.dropOnAdminStatus then true
    else if s.seenNonAdmin > 0 then (if s.negateMatch then s.keepForOtherMatch else !s.keepForOtherMatch)
    else s.negateMatch
  }

  // ---------------------------------------------------------------- the loop

  /** The admin status, and what starts with "if_", "input_if_" or "output_if_". */
  ghost predicate IsInterfaceAttribute(k: string) {
    || k == "if_AdminStatus"
    || exists rest :: k == "if_" + rest || k == "input_if_" + rest || k == "output_if_" + rest
  }

  lemma SkipsIff(x: Subject, k: string)
    ensures Skips(x, k) <==> !x.isIfMetric && IsInterfaceAttribute(k)
  {
    PrefixIff(k, "if_");
    PrefixIff(k, "input_if_");
    PrefixIff(k, "output_if_");
    hide HasPrefix;
  }

  lemma PrefixIff(k: string, prefix: string)
    ensures HasPrefix(k, prefix) <==> exists rest :: k == prefix + rest
  {
    if HasPrefix(k, prefix) {
      assert k == prefix + k[|prefix|..];
    }
    if rest :| k == prefix + rest {
      assert k[..|prefix|] == prefix;
    }
  }

  method CheckFilter(x: Subject, k: string, re: string, forceMatch: bool, seenAny: bool, s: State) returns (t: State)
    ensures t == Checked(x, k, re, forceMatch && !seenAny, s)
    ensures t.negateMatch == s.negateMatch
    // attributes of an interface do not count for a metric that is not one of an interface
    ensures !x.isIfMetric && IsInterfaceAttribute(k) ==> t == s.(stop := false)
    ensures x.isIfMetric || !IsInterfaceAttribute(k) ==>
              if k in x.attr && x.attr[k].Text? then
                if k == "if_AdminStatus" then
                  && t.dropOnAdminStatus == !x.matches(re, x.attr[k].s) && t.stop == t.dropOnAdminStatus
                  && t.keepForOtherMatch == s.keepForOtherMatch && t.seenNonAdmin == s.seenNonAdmin
                else
                  && t.keepForOtherMatch == (s.keepForOtherMatch || x.matches(re, x.attr[k].s))
                  && t.seenNonAdmin == s.seenNonAdmin + 1 && t.dropOnAdminStatus == s.dropOnAdminStatus
                  && t.stop == (forceMatch && !seenAny && !t.keepForOtherMatch)
              else if k !in x.attr && forceMatch && !seenAny then
                && t.stop && !t.keepForOtherMatch
                && t.seenNonAdmin == s.seenNonAdmin + 1 && t.dropOnAdminStatus == s.dropOnAdminStatus
              else t == s.(stop := false)
  {
    SkipsIff(x, k);
    t := s.(stop := false);
    if !x.isIfMetric && (k == ADMIN_STATUS || HasPrefix(k, "if_") || HasPrefix(k, "input_if_") || HasPrefix(k, "output_if_")) {
      return;
    }
    if k in x.attr {
      if x.attr[k].Text? {
        if k == ADMIN_STATUS {
          t := t.(dropOnAdminStatus := !x.matches(re, x.attr[k].s));
          if t.dropOnAdminStatus {
            t := t.(stop := true);
          }
        } else {
          t := t.(seenNonAdmin := t.seenNonAdmin + 1);
          if !t.keepForOtherMatch {
            t := t.(keepForOtherMatch := x.matches(re, x.attr[k].s));
            if !t.keepForOtherMatch && forceMatch && !seenAny {
              t := t.(stop := true);
            }
          }
        }
      }
    } else if forceMatch && !seenAny {
      t := t.(seenNonAdmin := t.seenNonAdmin + 1, keepForOtherMatch := false, stop := true);
    }
  }

  /** One entry of the map. */
  method Enter(x: Subject, k: string, re: string, s: State) returns (t: State)
    ensures t == Entered(x, k, re, s)
  {
    hide Checked;
    if IsNegate(k) {
      return s.(negateMatch := true);
    }
    var keyCheck := KeysOf(k);
    var forceMatch, seenAny := IsForced(k), false;
    if forceMatch {
      for i := 0 to |keyCheck|
        invariant !seenAny && forall j :: 0 <= j < i ==> keyCheck[j] !in x.attr
      {
        if keyCheck[i] in x.attr {
          seenAny := true;
          break;
        }
      }
    }
    t := s;
    for i := 0 to |keyCheck|
      invariant t == CheckedAll(x, keyCheck[..i], re, forceMatch && !seenAny, s)
    {
      t := CheckFilter(x, keyCheck[i], re, forceMatch, seenAny, t);
      assert keyCheck[..i + 1][..i] == keyCheck[..i];
    }
    assert keyCheck[..|keyCheck|] == keyCheck;
  }

  /** The answer in some order of the entries. */
  ghost predicate IsAnswer(x: Subject, patterns: map<string, string>, drop: bool) {
    exists order :: Lists(order, patterns.Keys) && drop == Answer(Visited(x, patterns, order))
  }

  method DropOnFilter(x: Subject, patterns: map<string, string>) returns (drop: bool)
    ensures IsAnswer(x, patterns, drop)
  {
    hide Entered, Answer, Visited, Lists, IsAnswer;
    ghost var order: seq<string>, done: set<string> := [], {};
    var s := START;
    var todo := patterns.Keys;
    NothingSeen(x, patterns);
    while todo != {}
      invariant done !! todo && done + todo == patterns.Keys && Lists(order, done)
      invariant s == Visited(x, patterns, order) && !s.stop
    {
      var k :| k in todo;
      todo := todo - {k};
      VisitedStep(x, patterns, order, k);
      ListsSnoc(order, done, k);
      s := Enter(x, k, patterns[k], s);
      order, done := order + [k], done + {k};
      if s.stop {
        ghost var rest := ListOf(todo);
        StopsFor(x, patterns, order, rest);
        ListsConcat(order, rest, done, todo);
        assert done + todo == patterns.Keys;
        AnswerOf(x, patterns, order + rest);
        return Answer(s);
      }
    }
    assert done == patterns.Keys;
    AnswerOf(x, patterns, order);
    drop := Answer(s);
  }

  lemma NothingSeen(x: Subject, patterns: map<string, string>)
    ensures Visited(x, patterns, []) == START && Lists<string>([], {})
  {
  }

  lemma AnswerOf(x: Subject, patterns: map<string, string>, order: seq<string>)
    requires Lists(order, patterns.Keys)
    ensures IsAnswer(x, patterns, Answer(Visited(x, patterns, order)))
  {
  }

  lemma {:induction false} StopsFor(x: Subject, patterns: map<string, string>, a: seq<string>, b: seq<string>)
    requires Visited(x, patterns, a).stop
    ensures Visited(x, patterns, a + b) == Visited(x, patterns, a)
    decreases |b|
  {
    hide Entered;
    if b == [] {
      assert a + b == a;
    } else {
      StopsFor(x, patterns, a, b[..|b| - 1]);
      assert (a + b)[..|a + b| - 1] == a + b[..|b| - 1];
    }
  }

  lemma VisitedStep(x: Subject, patterns: map<string, string>, before: seq<string>, k: string)
    requires k in patterns
    ensures var s := Visited(x, patterns, before);
            Visited(x, patterns, before + [k]) == if s.stop then s else Entered(x, k, patterns[k], s)
  {
    hide Entered;
    assert (before + [k])[..|before|] == before;
  }
}
