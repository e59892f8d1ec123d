/**
  Kotlin's default `Map` (a `LinkedHashMap` from `mutableMapOf`, `groupBy` or `associateBy`)
  remembers the order in which keys were first inserted, and `values`, `forEach` and
  `flatten` walk it in that order. It is modelled here as a sequence of entries with
  distinct keys.
 */
module OrderedMap {
  import opened Wrappers

  datatype Entry<K, V> = Entry(key: K, value: V)

  type OMap<K, V> = seq<Entry<K, V>>

  function Keys<K, V>(m: OMap<K, V>): (ks: seq<K>)
    ensures |ks| == |m|
    ensures forall i :: 0 <= i < |m| ==> ks[i] == m[i].key
  {
    if |m| == 0 then [] else Keys(m[..|m| - 1]) + [m[|m| - 1].key]
  }

  function Values<K, V>(m: OMap<K, V>): (vs: seq<V>)
    ensures |vs| == |m|
    ensures forall i :: 0 <= i < |m| ==> vs[i] == m[i].value
  {
    if |m| == 0 then [] else Values(m[..|m| - 1]) + [m[|m| - 1].value]
  }

  /** Every key occurs in at most one entry. */
  predicate Valid<K(==), V>(m: OMap<K, V>) {
    forall i, j :: 0 <= i < j < |m| ==> m[i].key != m[j].key
  }

  predicate HasKey<K(==), V>(m: OMap<K, V>, k: K) {
    exists i :: 0 <= i < |m| && m[i].key == k
  }

  /** `m[k]`: the value stored under `k`, or None when the key is absent. */
  function Get<K(==), V>(m: OMap<K, V>, k: K): (r: Option<V>)
    ensures r.None? <==> !HasKey(m, k)
    ensures r.Some? ==> exists i :: 0 <= i < |m| && m[i] == Entry(k, r.value)
    ensures Valid(m) ==> forall i :: 0 <= i < |m| && m[i].key == k ==> r == Some(m[i].value)
  {
    if |m| == 0 then None
    else if m[0].key == k then Some(m[0].value)
    else Get(m[1..], k)
  }

  /** The position of key `k`: the first entry carrying it. */
  function IndexOf<K(==), V>(m: OMap<K, V>, k: K): (i: nat)
    requires HasKey(m, k)
    ensures i < |m| && m[i].key == k
    ensures forall j :: 0 <= j < i ==> m[j].key != k
  {
    if m[0].key == k then 0 else 1 + IndexOf(m[1..], k)
  }

  /**
    `m[k] = v`: an existing key keeps its position and takes the new value; a new key
    goes to the end.
   */
  function Put<K(==), V>(m: OMap<K, V>, k: K, v: V): (r: OMap<K, V>)
    requires Valid(m)
    ensures Valid(r)
    ensures HasKey(m, k) ==> |r| == |m| && Keys(r) == Keys(m)
    ensures !HasKey(m, k) ==> r == m + [Entry(k, v)]
    ensures forall i :: 0 <= i < |r| ==> r[i] == (if r[i].key == k then Entry(k, v) else m[i])
  {
    if HasKey(m, k) then m[IndexOf(m, k) := Entry(k, v)] else m + [Entry(k, v)]
  }

  /** After `m[k] = v`, reading `k` gives `v` and every other key reads as before. */
  lemma GetPut<K, V>(m: OMap<K, V>, k: K, v: V, k': K)
    requires Valid(m)
    ensures Get(Put(m, k, v), k) == Some(v)
    ensures k' != k ==> Get(Put(m, k, v), k') == Get(m, k')
  {
    var r := Put(m, k, v);
    assert HasKey(r, k) by {
      if HasKey(m, k) { assert r[IndexOf(m, k)].key == k; } else { assert r[|m|].key == k; }
    }
    if k' != k && HasKey(m, k') {
      var i := IndexOf(m, k');
      assert r[i].key == k';
    }
  }

  /** A key is present exactly when it is listed among the keys. */
  lemma HasKeyListed<K, V>(m: OMap<K, V>, k: K)
    ensures HasKey(m, k) <==> k in Keys(m)
  {
    if k in Keys(m) {
      var i :| 0 <= i < |Keys(m)| && Keys(m)[i] == k;
      assert m[i].key == k;
    }
    if HasKey(m, k) {
      var i :| 0 <= i < |m| && m[i].key == k;
      assert Keys(m)[i] == k;
    }
  }

  /** Assigning a key leaves the key order alone, or appends the key when it is new. */
  lemma KeysPut<K, V>(m: OMap<K, V>, k: K, v: V)
    requires Valid(m)
    ensures Keys(Put(m, k, v)) == if HasKey(m, k) then Keys(m) else Keys(m) + [k]
  {
    if !HasKey(m, k) {
      assert Keys(m + [Entry(k, v)]) == Keys(m) + [k];
    }
  }

  /** Kotlin's `flatten()`: the inner lists one after another. */
  function Flatten<T>(ss: seq<seq<T>>): (r: seq<T>)
    ensures forall i :: 0 <= i < |ss| ==> forall x :: x in ss[i] ==> x in r
    ensures forall x :: x in r ==> exists i :: 0 <= i < |ss| && x in ss[i]
  {
    if |ss| == 0 then [] else ss[0] + Flatten(ss[1..])
  }
}
