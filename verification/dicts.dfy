/**
 * Python dictionaries as insertion-ordered association lists.
 *
 * A dict is a sequence of (key, value) pairs with pairwise distinct keys;
 * its iteration order is the sequence order. Assigning to a key that is
 * already present replaces the value and keeps the key where it was, as
 * CPython dicts do.
 */
module Dicts {
  import opened Wrappers

  type Dict<K, V> = seq<(K, V)>

  /** The keys, in iteration order. */
  function Keys<K, V>(d: Dict<K, V>): (ks: seq<K>)
    ensures |ks| == |d|
    ensures forall i :: 0 <= i < |d| ==> ks[i] == d[i].0
  {
    if d == [] then [] else [d[0].0] + Keys(d[1..])
  }

  /** The values, in iteration order (Python's `d.values()`). */
  function Values<K, V>(d: Dict<K, V>): (vs: seq<V>)
    ensures |vs| == |d|
    ensures forall i :: 0 <= i < |d| ==> vs[i] == d[i].1
  {
    if d == [] then [] else [d[0].1] + Values(d[1..])
  }

  ghost predicate Distinct<T>(s: seq<T>) {
    forall i, j :: 0 <= i < j < |s| ==> s[i] != s[j]
  }

  /** The representation invariant of a dict: no key twice. */
  ghost predicate WellFormed<K, V>(d: Dict<K, V>) {
    forall i, j :: 0 <= i < j < |d| ==> d[i].0 != d[j].0
  }

  predicate HasKey<K(==), V>(d: Dict<K, V>, k: K) {
    exists i :: 0 <= i < |d| && d[i].0 == k
  }

  /** `d[k]` when present; `None` is Python's KeyError. */
  function Get<K(==), V>(d: Dict<K, V>, k: K): (r: Option<V>)
    ensures r.None? <==> !HasKey(d, k)
    ensures r.Some? ==> exists i :: 0 <= i < |d| && d[i] == (k, r.value)
    ensures WellFormed(d) ==> forall i :: 0 <= i < |d| && d[i].0 == k ==> r == Some(d[i].1)
  {
    if d == [] then None
    else if d[0].0 == k then Some(d[0].1)
    else Get(d[1..], k)
  }

  /** `d[k] = v`: overwrite in place when `k` is present, append otherwise. */
  function Put<K(==), V>(d: Dict<K, V>, k: K, v: V): (r: Dict<K, V>)
    ensures HasKey(d, k) ==> |r| == |d|
    ensures !HasKey(d, k) ==> r == d + [(k, v)]
    ensures forall i :: 0 <= i < |d| ==> r[i].0 == d[i].0
    ensures forall i :: 0 <= i < |d| && d[i].0 != k ==> r[i] == d[i]
    ensures WellFormed(d) ==> forall i :: 0 <= i < |d| && d[i].0 == k ==> r[i] == (k, v)
  {
    if d == [] then [(k, v)]
    else if d[0].0 == k then [(k, v)] + d[1..]
    else [d[0]] + Put(d[1..], k, v)
  }

  lemma PutWellFormed<K, V>(d: Dict<K, V>, k: K, v: V)
    requires WellFormed(d)
    ensures WellFormed(Put(d, k, v))
    ensures Get(Put(d, k, v), k) == Some(v)
    ensures forall k' :: k' != k ==> Get(Put(d, k, v), k') == Get(d, k')
  {
    var r := Put(d, k, v);
    PutKeepsDistinct(d, k, v);
    forall k' | k' != k
      ensures Get(r, k') == Get(d, k')
    {
      PutOther(d, k, v, k');
    }
    assert HasKey(r, k) by {
      if HasKey(d, k) {
        var i :| 0 <= i < |d| && d[i].0 == k;
        assert r[i].0 == k;
      } else {
        assert r[|d|].0 == k;
      }
    }
  }

  lemma PutKeepsDistinct<K, V>(d: Dict<K, V>, k: K, v: V)
    requires WellFormed(d)
    ensures WellFormed(Put(d, k, v))
  {
    var r := Put(d, k, v);
    forall i, j | 0 <= i < j < |r| ensures r[i].0 != r[j].0 {
      if j < |d| {
        assert r[i].0 == d[i].0 && r[j].0 == d[j].0;
      } else {
        assert !HasKey(d, k) && r[j].0 == k;
        assert r[i].0 == d[i].0;
      }
    }
  }

  lemma PutOther<K, V>(d: Dict<K, V>, k: K, v: V, k': K)
    requires WellFormed(d) && WellFormed(Put(d, k, v)) && k' != k
    ensures Get(Put(d, k, v), k') == Get(d, k')
  {
    var r := Put(d, k, v);
    if HasKey(d, k') {
      var i :| 0 <= i < |d| && d[i].0 == k';
      assert r[i] == d[i];
    } else {
      forall i | 0 <= i < |r| ensures r[i].0 != k' {
        if i < |d| { assert r[i].0 == d[i].0; }
      }
    }
  }

  /** Keys present in both dicts. */
  ghost predicate SharedKey<K, V, W>(a: Dict<K, V>, b: Dict<K, W>, k: K) {
    HasKey(a, k) && HasKey(b, k)
  }

  function KeySet<K, V>(d: Dict<K, V>): (s: set<K>)
    ensures forall k :: k in s ==> HasKey(d, k)
    ensures forall i :: 0 <= i < |d| ==> d[i].0 in s
  {
    set i | 0 <= i < |d| :: d[i].0
  }

  lemma KeySetCons<K, V>(d: Dict<K, V>)
    requires d != []
    ensures KeySet(d) == {d[0].0} + KeySet(d[1..])
  {
    var t := d[1..];
    forall k | k in KeySet(d) ensures k in {d[0].0} + KeySet(t) {
      var i :| 0 <= i < |d| && d[i].0 == k;
      if i > 0 { assert t[i - 1].0 == k; }
    }
    forall k | k in KeySet(t) ensures k in KeySet(d) {
      var i :| 0 <= i < |t| && t[i].0 == k;
      assert d[i + 1].0 == k;
    }
  }

  /** A dict with distinct keys has as many keys as entries. */
  lemma {:induction false} KeySetSize<K, V>(d: Dict<K, V>)
    requires WellFormed(d)
    ensures |KeySet(d)| == |d|
  {
    if d != [] {
      var t := d[1..];
      assert WellFormed(t) by {
        forall i, j | 0 <= i < j < |t| ensures t[i].0 != t[j].0 {
          assert t[i] == d[i + 1] && t[j] == d[j + 1];
        }
      }
      KeySetSize(t);
      KeySetCons(d);
      assert d[0].0 !in KeySet(t) by {
        forall k | k in KeySet(t) ensures k != d[0].0 {
          var i :| 0 <= i < |t| && t[i].0 == k;
          assert t[i] == d[i + 1];
        }
      }
    }
  }
}
