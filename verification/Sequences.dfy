/** Sequences of sequences put one after the other, and sets put in some order. */
module Sequences {
  function Flatten<T>(parts: seq<seq<T>>): seq<T> {
    if parts == [] then [] else Flatten(parts[..|parts| - 1]) + parts[|parts| - 1]
  }

  lemma FlattenStep<T>(parts: seq<seq<T>>, part: seq<T>)
    ensures Flatten(parts + [part]) == Flatten(parts) + part
  {
    assert (parts + [part])[..|parts|] == parts;
  }

  lemma {:induction false} FlattenConcat<T>(a: seq<seq<T>>, b: seq<seq<T>>)
    ensures Flatten(a + b) == Flatten(a) + Flatten(b)
    decreases |b|
  {
    if b == [] {
      assert a + b == a;
    } else {
      var c, last := b[..|b| - 1], b[|b| - 1];
      FlattenConcat(a, c);
      FlattenStep(a + c, last);
      assert a + c + [last] == a + b;
      assert Flatten(a) + Flatten(c) + last == Flatten(a) + Flatten(b);
    }
  }

  /** The elements of a set, each once, in some order. */
  ghost predicate Lists<T(!new)>(order: seq<T>, all: set<T>) {
    && (forall i, j :: 0 <= i < j < |order| ==> order[i] != order[j])
    && (forall x :: x in order <==> x in all)
  }

  lemma {:induction false} ListOf<T(!new)>(all: set<T>) returns (order: seq<T>)
    ensures Lists(order, all)
  {
    if all == {} {
      order := [];
    } else {
      var x :| x in all;
      var rest := ListOf(all - {x});
      order := [x] + rest;
    }
  }

  lemma ListsConcat<T(!new)>(a: seq<T>, b: seq<T>, sa: set<T>, sb: set<T>)
    requires Lists(a, sa) && Lists(b, sb) && sa !! sb
    ensures Lists(a + b, sa + sb)
  {
    var c := a + b;
    forall i, j | 0 <= i < j < |c| ensures c[i] != c[j] {
      if i < |a| <= j {
        assert a[i] in sa && b[j - |a|] in sb;
      }
    }
  }

  lemma ListsSnoc<T(!new)>(order: seq<T>, done: set<T>, x: T)
    requires Lists(order, done) && x !in done
    ensures Lists(order + [x], done + {x})
  {
    ListsConcat(order, [x], done, {x});
  }

  /** The positions, in order, of all elements that meet a predicate. */
  ghost predicate Picks<T>(s: seq<T>, p: T -> bool, at: seq<nat>) {
    && (forall k :: 0 <= k < |at| ==> at[k] < |s| && p(s[at[k]]))
    && (forall j, k :: 0 <= j < k < |at| ==> at[j] < at[k])
    && (forall i: nat :: i < |s| && p(s[i]) ==> i in at)
  }

  ghost predicate IsAt<T>(s: seq<T>, at: seq<nat>, part: seq<T>) {
    |part| == |at| && forall k :: 0 <= k < |at| ==> at[k] < |s| && part[k] == s[at[k]]
  }

  /** The elements that meet a predicate, in the order of the whole. */
  ghost predicate IsFiltered<T>(s: seq<T>, p: T -> bool, part: seq<T>) {
    exists at :: Picks(s, p, at) && IsAt(s, at, part)
  }

  lemma FilteredNone<T>(p: T -> bool)
    ensures IsFiltered([], p, [])
  {
    var none: seq<T> := [];
    assert Picks(none, p, []) && IsAt(none, [], none);
  }

  lemma PicksStep<T>(s: seq<T>, p: T -> bool, at: seq<nat>, x: T)
    requires Picks(s, p, at)
    ensures Picks(s + [x], p, if p(x) then at + [|s|] else at)
  {
    var all := s + [x];
    var more: seq<nat> := if p(x) then at + [|s|] else at;
    forall k | 0 <= k < |more| ensures more[k] < |all| && p(all[more[k]]) {
      if k < |at| {
        assert more[k] == at[k] && all[at[k]] == s[at[k]];
      } else {
        assert more[k] == |s|;
      }
    }
    forall i: nat | i < |all| && p(all[i]) ensures i in more {
      if i < |s| {
        assert p(s[i]);
        assert i in at;
      } else {
        assert more[|at|] == i;
      }
    }
  }

  lemma IsAtStep<T>(s: seq<T>, at: seq<nat>, part: seq<T>, x: T)
    requires IsAt(s, at, part)
    ensures IsAt(s + [x], at, part) && IsAt(s + [x], at + [|s|], part + [x])
  {
  }

  lemma FilteredStep<T>(s: seq<T>, p: T -> bool, part: seq<T>, x: T)
    requires IsFiltered(s, p, part)
    ensures IsFiltered(s + [x], p, if p(x) then part + [x] else part)
  {
    hide Picks, IsAt;
    var at :| Picks(s, p, at) && IsAt(s, at, part);
    PicksStep(s, p, at, x);
    IsAtStep(s, at, part, x);
  }
}
