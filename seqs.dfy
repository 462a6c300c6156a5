/** Sequence helpers: list comprehensions with a condition, first-match searches, duplicate freedom. */
module Seqs {
  import opened Json

  /** `[x for x in s if f(x)]`. */
  function Filter<T(==, !new)>(s: seq<T>, f: T -> bool): (r: seq<T>)
    ensures |r| <= |s|
    ensures forall x :: x in r <==> x in s && f(x)
    ensures forall i :: 0 <= i < |r| ==> f(r[i])
  {
    if s == [] then []
    else Filter(s[..|s| - 1], f) + (if f(s[|s| - 1]) then [s[|s| - 1]] else [])
  }

  /** Index of the first element satisfying `f`, if any. */
  function FirstIndex<T>(s: seq<T>, f: T -> bool): (r: Option<nat>)
    ensures r.Some? ==> r.value < |s| && f(s[r.value]) && forall j :: 0 <= j < r.value ==> !f(s[j])
    ensures r.None? ==> forall j :: 0 <= j < |s| ==> !f(s[j])
  {
    if s == [] then None
    else if f(s[0]) then Some(0)
    else match FirstIndex(s[1..], f)
      case None => None
      case Some(i) => Some(i + 1)
  }

  /** The first element that passes is the one `FirstIndex` finds. */
  lemma FirstIndexIsFirst<T>(s: seq<T>, f: T -> bool, i: nat)
    requires i < |s| && f(s[i])
    requires forall j :: 0 <= j < i ==> !f(s[j])
    ensures FirstIndex(s, f) == Some(i)
  {
  }

  /** The head of a filtered list is the first element of the original list that passes. */
  lemma {:induction false} FilterHead<T(!new)>(s: seq<T>, f: T -> bool, i: nat)
    requires i < |s| && f(s[i])
    requires forall j :: 0 <= j < i ==> !f(s[j])
    ensures |Filter(s, f)| > 0 && Filter(s, f)[0] == s[i]
  {
    var n := |s| - 1;
    if i < n {
      FilterHead(s[..n], f, i);
    }
  }

  /** The first element of `Filter(s, f)`, located in `s`. */
  lemma FilterHeadIsFirst<T(!new)>(s: seq<T>, f: T -> bool)
    ensures FirstIndex(s, f).Some? <==> |Filter(s, f)| > 0
    ensures FirstIndex(s, f).Some? ==> Filter(s, f)[0] == s[FirstIndex(s, f).value]
  {
    match FirstIndex(s, f)
    case Some(i) => FilterHead(s, f, i);
    case None =>
  }

  predicate Distinct<T(==)>(s: seq<T>) {
    forall i, j :: 0 <= i < j < |s| ==> s[i] != s[j]
  }

  function Elements<T>(s: seq<T>): set<T> {
    set i | 0 <= i < |s| :: s[i]
  }

  /** A duplicate-free list drawn from a set is no longer than the set. */
  lemma {:induction false} DistinctBounded<T>(s: seq<T>, universe: set<T>)
    requires Distinct(s)
    requires forall i :: 0 <= i < |s| ==> s[i] in universe
    ensures |s| <= |universe|
    decreases |s|
  {
    if s != [] {
      var last := s[|s| - 1];
      DistinctBounded(s[..|s| - 1], universe - {last});
    }
  }
}
