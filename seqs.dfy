/**
 * The array operations the controllers use on their in-memory collections:
 * `find`/`findIndex` by equality and `splice(index, 1)`.
 */
module Seqs {
  import opened Js

  /** `findIndex(y => y === x)`: the first position holding x, None for -1. */
  function IndexOf<T(==)>(s: seq<T>, x: T): (r: Option<nat>)
    ensures r.Some? ==> r.value < |s| && s[r.value] == x && x !in s[..r.value]
    ensures r.None? <==> x !in s
  {
    if s == [] then None
    else if s[0] == x then Some(0)
    else
      match IndexOf(s[1..], x)
      case None => None
      case Some(i) =>
        assert s[..i + 1] == [s[0]] + s[1..][..i];
        Some(i + 1)
  }

  /** `splice(i, 1)`: the element at i is gone, the others keep their order. */
  function RemoveAt<T>(s: seq<T>, i: nat): (r: seq<T>)
    requires i < |s|
    ensures |r| == |s| - 1
    ensures forall j :: 0 <= j < i ==> r[j] == s[j]
    ensures forall j :: i <= j < |r| ==> r[j] == s[j + 1]
  {
    s[..i] + s[i + 1..]
  }

  predicate Distinct<T(==)>(s: seq<T>)
  {
    forall i, j :: 0 <= i < j < |s| ==> s[i] != s[j]
  }

  /**
   * Removing one position from a list without repeats removes that value
   * entirely, keeps every other value, and leaves a list without repeats.
   */
  lemma RemoveAtDistinct<T>(s: seq<T>, i: nat)
    requires i < |s| && Distinct(s)
    ensures Distinct(RemoveAt(s, i))
    ensures s[i] !in RemoveAt(s, i)
    ensures forall y :: y in s && y != s[i] ==> y in RemoveAt(s, i)
  {
    var r := RemoveAt(s, i);
    forall y | y in s && y != s[i]
      ensures y in r
    {
      var j :| 0 <= j < |s| && s[j] == y;
      if j < i { assert r[j] == y; } else { assert r[j - 1] == y; }
    }
  }
}
