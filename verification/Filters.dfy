/** What it means for one list to be another with some elements left out: by position, in order, each once. */
module Filters {

  predicate Ascending(at: seq<nat>) {
    forall i, j :: 0 <= i < j < |at| ==> at[i] < at[j]
  }

  /** `at` are the positions in `xs` at which `keep` holds, ascending, and `ys` the elements there. */
  ghost predicate Selects<T>(xs: seq<T>, keep: T -> bool, ys: seq<T>, at: seq<nat>) {
    && Ascending(at)
    && (forall k: nat :: k in at <==> k < |xs| && keep(xs[k]))
    && |ys| == |at| && forall i :: 0 <= i < |at| ==> at[i] < |xs| && ys[i] == xs[at[i]]
  }

  function Select<T>(xs: seq<T>, keep: T -> bool): seq<T> {
    if xs == [] then []
    else
      var (before, last) := (Select(xs[..|xs| - 1], keep), xs[|xs| - 1]);
      if keep(last) then before + [last] else before
  }

  lemma AppendAscending(at: seq<nat>, last: nat)
    requires Ascending(at) && forall k: nat :: k in at ==> k < last
    ensures Ascending(at + [last]) && forall k: nat :: k in at + [last] <==> k in at || k == last
  {
    assert forall i :: 0 <= i < |at| ==> at[i] in at;
  }

  /** One more element, kept or left out. */
  lemma SelectsAppend<T>(xs: seq<T>, keep: T -> bool, ys: seq<T>, at: seq<nat>, x: T)
    requires Selects(xs, keep, ys, at)
    ensures Selects(xs + [x], keep, if keep(x) then ys + [x] else ys, if keep(x) then at + [|xs|] else at)
  {
    AppendAscending(at, |xs|);
    forall k: nat ensures k < |xs + [x]| && keep((xs + [x])[k]) <==> (k in at || (k == |xs| && keep(x))) {
    }
  }

  lemma InitLast<T>(xs: seq<T>)
    requires xs != []
    ensures xs == xs[..|xs| - 1] + [xs[|xs| - 1]]
  {
  }

  lemma {:induction false} SelectSelects<T>(xs: seq<T>, keep: T -> bool) returns (at: seq<nat>)
    ensures Selects(xs, keep, Select(xs, keep), at)
    decreases |xs|, 0
  {
    if xs == [] {
      at := [];
    } else {
      at := SelectSelectsLast(xs[..|xs| - 1], xs[|xs| - 1], keep);
      InitLast(xs);
    }
  }

  lemma SelectSelectsLast<T>(init: seq<T>, last: T, keep: T -> bool) returns (at: seq<nat>)
    ensures Selects(init + [last], keep, Select(init + [last], keep), at)
    decreases |init|, 1
  {
    var before := SelectSelects(init, keep);
    SelectsAppend(init, keep, Select(init, keep), before, last);
    assert (init + [last])[..|init|] == init;
    at := if keep(last) then before + [|init|] else before;
  }
}
