/** What several components share: an optional value, a sequence without repeats, and the
    first occurrences of a sequence. */
module Wrappers {

  datatype Option<+T> = None | Some(value: T) {
    function GetOr(default: T): T { if None? then default else value }
  }

  predicate NoDuplicates<T(==)>(xs: seq<T>) {
    forall i, j | 0 <= i < j < |xs| :: xs[i] != xs[j]
  }

  /** First occurrences, in order: list(dict.fromkeys(xs)). */
  function Distinct<T(==)>(xs: seq<T>): seq<T> {
    if xs == [] then []
    else
      var before, last := Distinct(xs[..|xs| - 1]), xs[|xs| - 1];
      if last in before then before else before + [last]
  }

  lemma {:induction false} DistinctKeepsEachOnce<T(!new)>(xs: seq<T>)
    ensures NoDuplicates(Distinct(xs))
    ensures forall x :: x in Distinct(xs) <==> x in xs
  {
    if xs != [] {
      DistinctKeepsEachOnce(xs[..|xs| - 1]);
      assert xs == xs[..|xs| - 1] + [xs[|xs| - 1]];
    }
  }

  predicate FirstAt<T(==)>(xs: seq<T>, k: nat)
    requires k < |xs|
  {
    xs[k] !in xs[..k]
  }

  lemma FirstInPrefix<T>(xs: seq<T>, n: nat, k: nat)
    requires k < n <= |xs|
    ensures FirstAt(xs[..n], k) <==> FirstAt(xs, k)
  {
    assert xs[..n][..k] == xs[..k];
  }

  /** They stand in the order of the sequence, each where it first occurs. */
  lemma {:induction false} DistinctInOrder<T(!new)>(xs: seq<T>) returns (at: seq<nat>)
    ensures |at| == |Distinct(xs)|
    ensures forall i | 0 <= i < |at| :: at[i] < |xs| && Distinct(xs)[i] == xs[at[i]]
    ensures forall i, j | 0 <= i < j < |at| :: at[i] < at[j]
    ensures forall k: nat | k < |xs| :: k in at <==> FirstAt(xs, k)
  {
    hide FirstAt;
    at := [];
    if xs != [] {
      var n := |xs| - 1;
      at := DistinctInOrder(xs[..n]);
      forall k: nat | k < n ensures k in at <==> FirstAt(xs, k) { FirstInPrefix(xs, n, k); }
      LastIsFirst(xs);
      if FirstAt(xs, n) { at := at + [n]; }
    }
  }

  lemma LastIsFirst<T(!new)>(xs: seq<T>)
    requires xs != []
    ensures FirstAt(xs, |xs| - 1) <==> xs[|xs| - 1] !in Distinct(xs[..|xs| - 1])
  {
    DistinctKeepsEachOnce(xs[..|xs| - 1]);
  }
}
