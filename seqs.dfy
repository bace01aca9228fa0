/** Generic facts about sequences used across the model. */
module Seqs {

  /** Python's `[x for x in s if keep(x)]`. */
  function Filter<T>(keep: T -> bool, s: seq<T>): (r: seq<T>)
    ensures |r| <= |s|
    ensures forall i :: 0 <= i < |r| ==> r[i] in s && keep(r[i])
    ensures forall i :: 0 <= i < |s| && keep(s[i]) ==> s[i] in r
  {
    if |s| == 0 then [] else (if keep(s[0]) then [s[0]] else []) + Filter(keep, s[1..])
  }

  /** Concatenation regroups. */
  lemma AppendAssoc<T>(a: seq<T>, b: seq<T>, c: seq<T>)
    ensures a + b + c == a + (b + c)
  {
  }

  /** An element of the input is kept exactly when the predicate holds of it. */
  lemma FilterKeeps<T>(keep: T -> bool, s: seq<T>, x: T)
    requires x in s
    ensures x in Filter(keep, s) <==> keep(x)
  {
    var i :| 0 <= i < |s| && s[i] == x;
    if x in Filter(keep, s) {
      var j :| 0 <= j < |Filter(keep, s)| && Filter(keep, s)[j] == x;
    }
  }

  lemma {:induction false} FilterAppend<T>(keep: T -> bool, a: seq<T>, b: seq<T>)
    ensures Filter(keep, a + b) == Filter(keep, a) + Filter(keep, b)
  {
    if |a| == 0 {
      assert a + b == b;
    } else {
      assert (a + b)[1..] == a[1..] + b;
      FilterAppend(keep, a[1..], b);
    }
  }

  /** Keeping every element leaves the sequence as it is. */
  lemma {:induction false} FilterAll<T>(keep: T -> bool, s: seq<T>)
    requires forall x :: x in s ==> keep(x)
    ensures Filter(keep, s) == s
  {
    if |s| > 0 {
      FilterAll(keep, s[1..]);
    }
  }

  /** Filters that agree on the elements of `s` select the same subsequence. */
  lemma {:induction false} FilterCongruent<T>(p: T -> bool, q: T -> bool, s: seq<T>)
    requires forall x :: x in s ==> p(x) == q(x)
    ensures Filter(p, s) == Filter(q, s)
  {
    if |s| > 0 {
      FilterCongruent(p, q, s[1..]);
    }
  }

  /** No value occurs twice. */
  predicate NoDup<T(==)>(s: seq<T>) {
    forall i, j :: 0 <= i < j < |s| ==> s[i] != s[j]
  }

  /** A sequence is its prefix, the element at the cut and its suffix. */
  lemma SplitAround<T>(s: seq<T>, k: nat)
    requires k < |s|
    ensures s == s[..k] + [s[k]] + s[k + 1..]
  {
  }

  /** The tail of a duplicate-free sequence is duplicate-free and lacks the head; the rest of its values are the tail's. */
  lemma NoDupTail<T>(s: seq<T>)
    requires s != [] && NoDup(s)
    ensures NoDup(s[1..]) && s[0] !in s[1..]
    ensures forall x :: x in s && x != s[0] ==> x in s[1..]
  {
    assert forall i :: 0 <= i < |s| - 1 ==> s[1..][i] == s[i + 1];
    assert s == [s[0]] + s[1..];
  }

  /** Concatenation of a sequence of sequences. */
  function Flatten<T>(ss: seq<seq<T>>): (r: seq<T>)
  {
    if |ss| == 0 then [] else ss[0] + Flatten(ss[1..])
  }

  /** The set of the elements of a sequence. */
  function Elems<T>(s: seq<T>): (r: set<T>)
    ensures forall i :: 0 <= i < |s| ==> s[i] in r
    ensures |r| <= |s|
  {
    if |s| == 0 then {} else {s[0]} + Elems(s[1..])
  }

  /** Python's `sum(len(x) for x in ss)`. */
  function SumLengths<T>(ss: seq<seq<T>>): (n: nat)
    ensures n == |Flatten(ss)|
  {
    if |ss| == 0 then 0 else |ss[0]| + SumLengths(ss[1..])
  }
}
