/**
 * Python dictionaries as association lists: insertion order is kept, assigning to an
 * existing key keeps its position, assigning to a new key appends it.
 */
module Assoc {
  import opened Wrappers
  import opened Seqs

  function Keys<K, V>(d: seq<(K, V)>): (r: seq<K>)
    ensures |r| == |d| && forall i :: 0 <= i < |d| ==> r[i] == d[i].0
  {
    if |d| == 0 then [] else [d[0].0] + Keys(d[1..])
  }

  /** Python's `k in d`. */
  predicate HasKey<K(==), V>(d: seq<(K, V)>, k: K) {
    k in Keys(d)
  }

  /** Python's `d.get(k)`, with `None` for a missing key. */
  function Get<K(==), V>(d: seq<(K, V)>, k: K): (r: Option<V>)
    ensures r.Some? <==> HasKey(d, k)
    ensures r.Some? ==> (k, r.value) in d
  {
    if |d| == 0 then None else if d[0].0 == k then Some(d[0].1) else Get(d[1..], k)
  }

  /** Python's `d.get(k, default)`. */
  function GetOr<K(==), V>(d: seq<(K, V)>, k: K, default: V): (r: V)
    ensures !HasKey(d, k) ==> r == default
  {
    match Get(d, k)
    case Some(v) => v
    case None => default
  }

  /** Python's `d[k] = v`. */
  function Put<K(==, !new), V>(d: seq<(K, V)>, k: K, v: V): (r: seq<(K, V)>)
    ensures Keys(r) == if HasKey(d, k) then Keys(d) else Keys(d) + [k]
    ensures Get(r, k) == Some(v)
    ensures forall k' :: k' != k ==> Get(r, k') == Get(d, k')
  {
    if |d| == 0 then [(k, v)]
    else
      assert d == [d[0]] + d[1..];
      Cons(d[0], d[1..]);
      if d[0].0 == k then
        Cons((k, v), d[1..]);
        [(k, v)] + d[1..]
      else
        var rest := Put(d[1..], k, v);
        PutBehind(d[0], d[1..], rest, k, v);
        [d[0]] + rest
  }

  /** Putting `k` behind a first entry with another key: the first entry stays in front. */
  lemma PutBehind<K(!new), V>(x: (K, V), d: seq<(K, V)>, rest: seq<(K, V)>, k: K, v: V)
    requires x.0 != k
    requires Keys(rest) == if HasKey(d, k) then Keys(d) else Keys(d) + [k]
    requires Get(rest, k) == Some(v)
    requires forall k' :: k' != k ==> Get(rest, k') == Get(d, k')
    ensures Keys([x] + rest) == if HasKey([x] + d, k) then Keys([x] + d) else Keys([x] + d) + [k]
    ensures Get([x] + rest, k) == Some(v)
    ensures forall k' :: k' != k ==> Get([x] + rest, k') == Get([x] + d, k')
  {
    PutBehindKeys(x, d, rest, k);
    Cons(x, rest);
    Cons(x, d);
  }

  lemma PutBehindKeys<K(!new), V>(x: (K, V), d: seq<(K, V)>, rest: seq<(K, V)>, k: K)
    requires x.0 != k
    requires Keys(rest) == if HasKey(d, k) then Keys(d) else Keys(d) + [k]
    ensures Keys([x] + rest) == if HasKey([x] + d, k) then Keys([x] + d) else Keys([x] + d) + [k]
  {
    var kd, kr := Keys([x] + d), Keys([x] + rest);
    Cons(x, rest);
    Cons(x, d);
    assert kd == [x.0] + Keys(d) && kr == [x.0] + Keys(rest);
    assert HasKey([x] + d, k) == HasKey(d, k);
    if !HasKey(d, k) {
      assert kr == [x.0] + (Keys(d) + [k]) == kd + [k];
    }
  }

  /** Keys and lookups of a dictionary with one entry put in front. */
  lemma {:induction false} Cons<K, V>(x: (K, V), d: seq<(K, V)>)
    ensures Keys([x] + d) == [x.0] + Keys(d)
    ensures forall k :: Get([x] + d, k) == if x.0 == k then Some(x.1) else Get(d, k)
  {
    assert ([x] + d)[1..] == d;
  }

  /** Python's `del d[k]` (also the effect of `d.pop(k)`). */
  function Remove<K(==, !new), V>(d: seq<(K, V)>, k: K): (r: seq<(K, V)>)
    ensures !HasKey(r, k)
    ensures forall k' :: k' != k ==> Get(r, k') == Get(d, k')
    ensures |r| <= |d|
  {
    if |d| == 0 then []
    else if d[0].0 == k then Remove(d[1..], k)
    else [d[0]] + Remove(d[1..], k)
  }

  /** The dictionary invariant: no key twice. */
  predicate DistinctKeys<K(==), V>(d: seq<(K, V)>) {
    NoDup(Keys(d))
  }

  /** After a put, the keys are the old ones and the key put. */
  lemma {:induction false} PutHasKey<K(!new), V>(d: seq<(K, V)>, k: K, v: V)
    ensures forall k' :: HasKey(Put(d, k, v), k') <==> HasKey(d, k') || k' == k
  {
    var ks := Keys(d);
    if !HasKey(d, k) {
      assert Keys(Put(d, k, v)) == ks + [k];
    }
  }

  lemma {:induction false} PutDistinct<K(!new), V>(d: seq<(K, V)>, k: K, v: V)
    requires DistinctKeys(d)
    ensures DistinctKeys(Put(d, k, v))
  {
    var ks := Keys(d);
    if !HasKey(d, k) {
      assert Keys(Put(d, k, v)) == ks + [k];
    }
  }

  /** Assigning a key twice is assigning it once, with the second value. */
  lemma {:induction false} PutTwice<K(!new), V>(d: seq<(K, V)>, k: K, v1: V, v2: V)
    ensures Put(Put(d, k, v1), k, v2) == Put(d, k, v2)
  {
    if |d| > 0 && d[0].0 != k {
      PutTwice(d[1..], k, v1, v2);
      assert Put(d, k, v1)[1..] == Put(d[1..], k, v1);
    }
  }
}
