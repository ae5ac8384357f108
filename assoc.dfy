/**
 * Python's insertion-ordered dict, as a sequence of (key, value) pairs.
 * Assigning to a present key keeps its position; assigning to a new key
 * appends it; `del` removes the pair and keeps the order of the others.
 */
module Assoc {
  import opened Wrappers

  type Assoc<K, V> = seq<(K, V)>

  /** The keys in order: Python's list(d.keys()). */
  function Keys<K, V>(m: Assoc<K, V>): (r: seq<K>)
    ensures |r| == |m|
    ensures forall i :: 0 <= i < |m| ==> r[i] == m[i].0
  {
    if m == [] then [] else [m[0].0] + Keys(m[1..])
  }

  /** No element occurs twice. */
  predicate NoDup<K(==)>(s: seq<K>) {
    forall i, j :: 0 <= i < j < |s| ==> s[i] != s[j]
  }

  /** No key occurs twice, as in every Python dict. */
  predicate DistinctKeys<K(==), V>(m: Assoc<K, V>) {
    NoDup(Keys(m))
  }

  /** d.get(k): the value stored under k, if any. */
  function Find<K(==), V>(m: Assoc<K, V>, k: K): (r: Option<V>)
    ensures r.Some? <==> k in Keys(m)
  {
    if m == [] then None
    else if m[0].0 == k then Some(m[0].1)
    else
      assert Keys(m) == [m[0].0] + Keys(m[1..]);
      Find(m[1..], k)
  }

  /** d.get(k, default). */
  function GetOr<K(==), V>(m: Assoc<K, V>, k: K, default: V): V {
    match Find(m, k)
    case Some(v) => v
    case None => default
  }

  /** d[k] = v. */
  function Put<K(==), V>(m: Assoc<K, V>, k: K, v: V): Assoc<K, V> {
    if m == [] then [(k, v)]
    else if m[0].0 == k then [(k, v)] + m[1..]
    else [m[0]] + Put(m[1..], k, v)
  }

  /** The keys other than k, in order. */
  function Without<K(==, !new)>(ks: seq<K>, k: K): (r: seq<K>)
    ensures k !in r
    ensures forall x :: x in r <==> x in ks && x != k
  {
    if ks == [] then []
    else if ks[0] == k then Without(ks[1..], k)
    else [ks[0]] + Without(ks[1..], k)
  }

  /** del d[k], or nothing when k is absent. */
  function Remove<K(==), V>(m: Assoc<K, V>, k: K): Assoc<K, V> {
    if m == [] then []
    else if m[0].0 == k then Remove(m[1..], k)
    else [m[0]] + Remove(m[1..], k)
  }

  // ---------------------------------------------------------------- lemmas

  /** After d[k] = v, k holds v and every other key what it held before. */
  lemma {:induction false} PutFind<K(!new), V>(m: Assoc<K, V>, k: K, v: V)
    ensures forall k' :: Find(Put(m, k, v), k') == if k' == k then Some(v) else Find(m, k')
    decreases |m|
  {
    if m != [] && m[0].0 != k {
      PutFind(m[1..], k, v);
      var r := Put(m, k, v);
      assert r[0] == m[0] && r[1..] == Put(m[1..], k, v);
    } else if m != [] {
      assert ([(k, v)] + m[1..])[1..] == m[1..];
    }
  }

  /** d[k] = v keeps the key order; a new key goes last. */
  lemma {:induction false} PutKeys<K, V>(m: Assoc<K, V>, k: K, v: V)
    ensures Keys(Put(m, k, v)) == if k in Keys(m) then Keys(m) else Keys(m) + [k]
    decreases |m|
  {
    if m != [] {
      assert Keys(m) == [m[0].0] + Keys(m[1..]);
      if m[0].0 == k {
        var r := [(k, v)] + m[1..];
        assert r[1..] == m[1..];
        assert Keys(r) == [k] + Keys(m[1..]);
      } else {
        PutKeys(m[1..], k, v);
        var r := Put(m, k, v);
        assert r[1..] == Put(m[1..], k, v);
        assert Keys(r) == [m[0].0] + Keys(r[1..]);
      }
    }
  }

  /** After del d[k], k is absent and every other key holds what it held before. */
  lemma {:induction false} RemoveFind<K(!new), V>(m: Assoc<K, V>, k: K)
    ensures forall k' :: Find(Remove(m, k), k') == if k' == k then None else Find(m, k')
    decreases |m|
  {
    if m != [] {
      RemoveFind(m[1..], k);
      if m[0].0 != k {
        var r := Remove(m, k);
        assert r[0] == m[0] && r[1..] == Remove(m[1..], k);
      }
    }
  }

  /** del d[k] keeps the order of the other keys. */
  lemma {:induction false} RemoveKeys<K(!new), V>(m: Assoc<K, V>, k: K)
    ensures Keys(Remove(m, k)) == Without(Keys(m), k)
    decreases |m|
  {
    if m != [] {
      RemoveKeys(m[1..], k);
      assert Keys(m) == [m[0].0] + Keys(m[1..]);
      if m[0].0 != k {
        var r := Remove(m, k);
        assert r[1..] == Remove(m[1..], k);
        assert Keys(r) == [m[0].0] + Keys(r[1..]);
      }
    }
  }

  lemma KeysAppend<K, V>(m: Assoc<K, V>, k: K, v: V)
    ensures Keys(m + [(k, v)]) == Keys(m) + [k]
  {
  }

  /** With distinct keys, the lookup finds the one pair holding the key. */
  lemma {:induction false} FindAt<K, V>(m: Assoc<K, V>, i: nat)
    requires DistinctKeys(m) && i < |m|
    ensures Find(m, m[i].0) == Some(m[i].1)
    decreases i
  {
    if i > 0 {
      assert m[0].0 != m[i].0;
      FindAt(m[1..], i - 1);
    }
  }

  /** Assigning to a new key appends the pair at the end. */
  lemma {:induction false} PutNew<K(!new), V>(m: Assoc<K, V>, k: K, v: V)
    requires k !in Keys(m)
    ensures Put(m, k, v) == m + [(k, v)]
    decreases |m|
  {
    if m != [] {
      assert Keys(m) == [m[0].0] + Keys(m[1..]);
      PutNew(m[1..], k, v);
      calc {
        Put(m, k, v);
        [m[0]] + Put(m[1..], k, v);
        [m[0]] + (m[1..] + [(k, v)]);
        { assert m == [m[0]] + m[1..]; }
        m + [(k, v)];
      }
    }
  }

  /** Assigning to the key of the last pair replaces that pair only. */
  lemma {:induction false} PutLast<K(!new), V>(m: Assoc<K, V>, k: K, v: V, v': V)
    requires k !in Keys(m)
    ensures Put(m + [(k, v)], k, v') == m + [(k, v')]
    decreases |m|
  {
    if m != [] {
      var mv := m + [(k, v)];
      assert Keys(m) == [m[0].0] + Keys(m[1..]);
      assert mv[0] == m[0] && mv[0].0 != k;
      assert mv[1..] == m[1..] + [(k, v)];
      PutLast(m[1..], k, v, v');
      assert Put(mv, k, v') == [m[0]] + Put(mv[1..], k, v');
      assert m + [(k, v')] == [m[0]] + (m[1..] + [(k, v')]);
    } else {
      assert [(k, v)][1..] == [];
    }
  }

  /** The key of the last pair, when new before it, finds that pair. */
  lemma {:induction false} FindLast<K, V>(m: Assoc<K, V>, k: K, v: V)
    requires k !in Keys(m)
    ensures Find(m + [(k, v)], k) == Some(v)
    decreases |m|
  {
    if m != [] {
      assert Keys(m) == [m[0].0] + Keys(m[1..]);
      assert (m + [(k, v)])[1..] == m[1..] + [(k, v)];
      FindLast(m[1..], k, v);
    }
  }

  /** A key that is new is absent from every lookup. */
  lemma FindAbsent<K, V>(m: Assoc<K, V>, k: K)
    requires k !in Keys(m)
    ensures Find(m, k) == None
  {
  }

  /** Assignment keeps the keys distinct. */
  lemma PutDistinct<K(!new), V>(m: Assoc<K, V>, k: K, v: V)
    requires DistinctKeys(m)
    ensures DistinctKeys(Put(m, k, v))
  {
    PutKeys(m, k, v);
  }

  lemma {:induction false} WithoutNoDup<K(!new)>(ks: seq<K>, k: K)
    requires NoDup(ks)
    ensures NoDup(Without(ks, k))
    decreases |ks|
  {
    if ks != [] {
      WithoutNoDup(ks[1..], k);
      assert ks[0] !in ks[1..];
    }
  }

  /** Deletion keeps the keys distinct. */
  lemma RemoveDistinct<K(!new), V>(m: Assoc<K, V>, k: K)
    requires DistinctKeys(m)
    ensures DistinctKeys(Remove(m, k))
  {
    RemoveKeys(m, k);
    WithoutNoDup(Keys(m), k);
  }

  /** Appending a pair with a new key keeps the keys distinct. */
  lemma DistinctAppend<K, V>(m: Assoc<K, V>, k: K, v: V)
    requires DistinctKeys(m)
    ensures DistinctKeys(m + [(k, v)]) <==> k !in Keys(m)
  {
    if k in Keys(m) {
      var i :| 0 <= i < |m| && Keys(m)[i] == k;
      assert (m + [(k, v)])[i].0 == (m + [(k, v)])[|m|].0;
    }
  }

  /** Every pair of Put(m, k, v) is the new pair or a pair of m. */
  lemma {:induction false} PutElems<K, V>(m: Assoc<K, V>, k: K, v: V)
    ensures forall p :: p in Put(m, k, v) ==> p == (k, v) || p in m
  {
    if m != [] && m[0].0 != k {
      PutElems(m[1..], k, v);
    }
  }

  /** Removing a key leaves only pairs of m. */
  lemma {:induction false} RemoveElems<K, V>(m: Assoc<K, V>, k: K)
    ensures forall p :: p in Remove(m, k) ==> p in m
  {
    if m != [] {
      RemoveElems(m[1..], k);
    }
  }

  /** What Find returns is stored in m. */
  lemma {:induction false} FindElem<K, V>(m: Assoc<K, V>, k: K)
    requires k in Keys(m)
    ensures (k, Find(m, k).value) in m
  {
    if m[0].0 != k {
      assert Keys(m) == [m[0].0] + Keys(m[1..]);
      FindElem(m[1..], k);
    }
  }
}
