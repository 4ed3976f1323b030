/** Array.prototype.sort with an integer key: a stable sort. */
module Sorting {

  function Insert<T>(x: T, xs: seq<T>, key: T -> int): seq<T> {
    if xs == [] || key(x) <= key(xs[0]) then [x] + xs else [xs[0]] + Insert(x, xs[1..], key)
  }

  function SortBy<T>(xs: seq<T>, key: T -> int): seq<T> {
    if xs == [] then [] else Insert(xs[0], SortBy(xs[1..], key), key)
  }

  predicate StrictlyAscending<T>(xs: seq<T>, key: T -> int) {
    forall i, j :: 0 <= i < j < |xs| ==> key(xs[i]) < key(xs[j])
  }

  lemma AscendingOrder<T>(xs: seq<T>, key: T -> int, p: nat, q: nat)
    requires StrictlyAscending(xs, key) && p < |xs| && q < |xs| && key(xs[p]) <= key(xs[q])
    ensures p <= q
  {
  }

  predicate DistinctKeys<T>(xs: seq<T>, key: T -> int) {
    forall i, j :: 0 <= i < j < |xs| ==> key(xs[i]) != key(xs[j])
  }

  ghost function Elements<T>(xs: seq<T>): set<T> {
    set x | x in xs
  }

  lemma EmptyElements<T>(xs: seq<T>)
    ensures xs == [] <==> Elements(xs) == {}
  {
    if xs != [] {
      assert xs[0] in Elements(xs);
    }
  }

  lemma ElementsOfCons<T>(xs: seq<T>)
    requires xs != []
    ensures Elements(xs) == {xs[0]} + Elements(xs[1..])
  {
    assert xs == [xs[0]] + xs[1..];
  }

  ghost predicate Above<T>(bound: int, xs: seq<T>, key: T -> int) {
    forall x :: x in Elements(xs) ==> bound < key(x)
  }

  lemma AscendingCons<T>(xs: seq<T>, key: T -> int)
    requires xs != []
    ensures StrictlyAscending(xs, key) <==> StrictlyAscending(xs[1..], key) && Above(key(xs[0]), xs[1..], key)
  {
    var rest := xs[1..];
    assert forall i :: 0 <= i < |rest| ==> rest[i] == xs[i + 1] && rest[i] in Elements(rest);
    if StrictlyAscending(rest, key) && Above(key(xs[0]), rest, key) {
      forall i, j | 0 <= i < j < |xs| ensures key(xs[i]) < key(xs[j]) {
        assert xs[j] == rest[j - 1];
        assert i > 0 ==> xs[i] == rest[i - 1];
      }
    }
  }

  lemma {:induction false} InsertSorts<T>(x: T, xs: seq<T>, key: T -> int)
    requires StrictlyAscending(xs, key) && forall y :: y in Elements(xs) ==> key(y) != key(x)
    ensures StrictlyAscending(Insert(x, xs, key), key)
    ensures Elements(Insert(x, xs, key)) == {x} + Elements(xs)
    ensures |Insert(x, xs, key)| == |xs| + 1
  {
    var inserted := Insert(x, xs, key);
    ElementsOfCons(inserted);
    AscendingCons(inserted, key);
    if xs == [] {
    } else {
      ElementsOfCons(xs);
      AscendingCons(xs, key);
      assert xs[0] in Elements(xs);
      if key(x) <= key(xs[0]) {
        assert inserted[1..] == xs;
      } else {
        InsertSorts(x, xs[1..], key);
        assert inserted[1..] == Insert(x, xs[1..], key);
      }
    }
  }

  /** Elements with distinct keys sort into strictly ascending order, none lost and none added. */
  lemma {:induction false} SortDistinct<T>(xs: seq<T>, key: T -> int)
    requires DistinctKeys(xs, key)
    ensures StrictlyAscending(SortBy(xs, key), key)
    ensures Elements(SortBy(xs, key)) == Elements(xs)
    ensures |SortBy(xs, key)| == |xs|
  {
    if xs != [] {
      SortDistinct(xs[1..], key);
      ElementsOfCons(xs);
      forall y | y in Elements(xs[1..]) ensures key(y) != key(xs[0]) {
        var k :| 0 <= k < |xs[1..]| && xs[1..][k] == y;
        assert xs[k + 1] == y;
      }
      InsertSorts(xs[0], SortBy(xs[1..], key), key);
    }
  }

  /** A strictly ascending list is determined by its elements. */
  lemma {:induction false} AscendingUnique<T>(xs: seq<T>, ys: seq<T>, key: T -> int)
    requires StrictlyAscending(xs, key) && StrictlyAscending(ys, key)
    requires Elements(xs) == Elements(ys)
    ensures xs == ys
  {
    if xs == [] || ys == [] {
      EmptyElements(xs);
      EmptyElements(ys);
    } else {
      ElementsOfCons(xs);
      ElementsOfCons(ys);
      AscendingCons(xs, key);
      AscendingCons(ys, key);
      assert xs[0] in Elements(xs) && ys[0] in Elements(ys);
      assert xs[0] == ys[0];
      assert Elements(xs[1..]) == Elements(xs) - {xs[0]} && Elements(ys[1..]) == Elements(ys) - {ys[0]};
      AscendingUnique(xs[1..], ys[1..], key);
      assert xs == [xs[0]] + xs[1..] && ys == [ys[0]] + ys[1..];
    }
  }
}
