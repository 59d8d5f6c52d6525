/** Filters on messages and records: what passes all of them is kept. */
module Filters {
  import opened Sequences

  predicate PassesAll<T>(filters: seq<T -> bool>, m: T) {
    forall i :: 0 <= i < |filters| ==> filters[i](m)
  }

  /** The messages all filters let through. */
  function Passing<T>(ms: seq<T>, filters: seq<T -> bool>): seq<T> {
    if ms == [] then []
    else Passing(ms[..|ms| - 1], filters) + if PassesAll(filters, ms[|ms| - 1]) then [ms[|ms| - 1]] else []
  }

  lemma {:induction false} PassingIsFiltered<T>(ms: seq<T>, filters: seq<T -> bool>)
    ensures IsFiltered(ms, m => forall i :: 0 <= i < |filters| ==> filters[i](m), Passing(ms, filters))
  {
    hide IsFiltered;
    var p := (m: T) => forall i :: 0 <= i < |filters| ==> filters[i](m);
    if ms == [] {
      FilteredNone(p);
    } else {
      var before, last := ms[..|ms| - 1], ms[|ms| - 1];
      PassingIsFiltered(before, filters);
      FilteredStep(before, p, Passing(before, filters), last);
      assert before + [last] == ms;
      assert p(last) == PassesAll(filters, last);
      assert Passing(before, filters) + [] == Passing(before, filters);
    }
  }

  method Reduce<T>(ms: seq<T>, filters: seq<T -> bool>) returns (out: seq<T>)
    ensures out == Passing(ms, filters) && |out| <= |ms|
    ensures IsFiltered(ms, m => forall i :: 0 <= i < |filters| ==> filters[i](m), out)
  {
    hide IsFiltered;
    PassingIsFiltered(ms, filters);
    out := [];
    for n := 0 to |ms|
      invariant out == Passing(ms[..n], filters) && |out| <= n
    {
      var keep := true;
      for i := 0 to |filters|
        invariant keep && forall j :: 0 <= j < i ==> filters[j](ms[n])
      {
        if !filters[i](ms[n]) {
          keep := false;
          break;
        }
      }
      if keep {
        out := out + [ms[n]];
      }
      assert ms[..n + 1][..n] == ms[..n] && keep == PassesAll(filters, ms[n]);
    }
    assert ms[..|ms|] == ms;
  }

  lemma {:induction false} NoFilters<T>(ms: seq<T>)
    ensures Passing(ms, []) == ms
  {
    if ms != [] {
      NoFilters(ms[..|ms| - 1]);
      assert ms == ms[..|ms| - 1] + [ms[|ms| - 1]];
    }
  }
}
