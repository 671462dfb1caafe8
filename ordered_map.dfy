/**
 * A PHP array used as a dictionary: a finite map that also remembers the
 * order in which its keys were first inserted. Assigning to a key that is
 * already present keeps that key's position; `unset` drops the key and
 * leaves the others in order. `foreach` visits the keys in this order.
 */
module OrderedMaps {

  import opened Options

  /** PHP array keys; the channel core only uses string keys (socket ids). */
  type Key = string

  datatype OrderedMap<V> = OrderedMap(keys: seq<Key>, entries: map<Key, V>)

  ghost predicate Distinct<T>(s: seq<T>) {
    forall i, j :: 0 <= i < j < |s| ==> s[i] != s[j]
  }

  /** The key sequence lists every key of the map exactly once. */
  ghost predicate Valid<V>(m: OrderedMap<V>) {
    Distinct(m.keys) && (forall k :: k in m.keys <==> k in m.entries)
  }

  function Empty<V>(): (r: OrderedMap<V>)
    ensures Valid(r) && Size(r) == 0
  {
    OrderedMap([], map[])
  }

  /** PHP's `count($a)`. */
  function Size<V>(m: OrderedMap<V>): nat {
    |m.entries|
  }

  function Lookup<V>(m: OrderedMap<V>, k: Key): Option<V> {
    if k in m.entries then Some(m.entries[k]) else None
  }

  /** `$a[$k] = $v`. */
  function Put<V>(m: OrderedMap<V>, k: Key, v: V): (r: OrderedMap<V>)
    requires Valid(m)
    ensures Valid(r)
    ensures Lookup(r, k) == Some(v)
    ensures forall j :: j != k ==> Lookup(r, j) == Lookup(m, j)
    ensures Size(r) == Size(m) + (if k in m.entries then 0 else 1)
    // insertion order: old keys keep their places, a new key goes last
    ensures r.keys == m.keys || r.keys == m.keys + [k]
  {
    if k in m.entries then
      OrderedMap(m.keys, m.entries[k := v])
    else
      OrderedMap(m.keys + [k], m.entries[k := v])
  }

  /** The key sequence `s` with every occurrence of `k` dropped. */
  function Without(s: seq<Key>, k: Key): (r: seq<Key>)
    ensures forall j :: j in r <==> j in s && j != k
    ensures |r| <= |s|
  {
    if s == [] then []
    else if s[|s| - 1] == k then Without(s[..|s| - 1], k)
    else Without(s[..|s| - 1], k) + [s[|s| - 1]]
  }

  lemma {:induction false} WithoutKeepsDistinct(s: seq<Key>, k: Key)
    requires Distinct(s)
    ensures Distinct(Without(s, k))
  {
    if s != [] {
      var init := s[..|s| - 1];
      assert Distinct(init);
      WithoutKeepsDistinct(init, k);
      assert s[|s| - 1] !in init;
    }
  }

  lemma {:induction false} WithoutAbsent(s: seq<Key>, k: Key)
    requires k !in s
    ensures Without(s, k) == s
  {
    if s != [] {
      WithoutAbsent(s[..|s| - 1], k);
    }
  }

  /** Dropping a key from a concatenation drops it from each part, so the survivors keep their order. */
  lemma {:induction false} WithoutAppend(s1: seq<Key>, s2: seq<Key>, k: Key)
    ensures Without(s1 + s2, k) == Without(s1, k) + Without(s2, k)
  {
    if s2 == [] {
      assert s1 + s2 == s1;
    } else {
      var s := s1 + s2;
      assert s[..|s| - 1] == s1 + s2[..|s2| - 1];
      assert s[|s| - 1] == s2[|s2| - 1];
      WithoutAppend(s1, s2[..|s2| - 1], k);
    }
  }

  /** `unset($a[$k])`; a missing key leaves the array as it was. */
  function Remove<V>(m: OrderedMap<V>, k: Key): (r: OrderedMap<V>)
    requires Valid(m)
    ensures Valid(r)
    ensures Lookup(r, k) == None
    ensures forall j :: j != k ==> Lookup(r, j) == Lookup(m, j)
    ensures Size(r) == Size(m) - (if k in m.entries then 1 else 0)
    ensures k !in m.entries ==> r == m
    // the remaining keys keep their order (see WithoutAppend and RemoveKeepsOrder)
    ensures r.keys == Without(m.keys, k)
  {
    WithoutKeepsDistinct(m.keys, k);
    if k !in m.entries then
      WithoutAbsent(m.keys, k);
      assert m.entries - {k} == m.entries;
      OrderedMap(Without(m.keys, k), m.entries - {k})
    else
      OrderedMap(Without(m.keys, k), m.entries - {k})
  }

  /** Unsetting a key closes its gap: the keys before and after it stay, in their order. */
  lemma RemoveKeepsOrder<V>(m: OrderedMap<V>, k: Key, before: seq<Key>, after: seq<Key>)
    requires Valid(m) && m.keys == before + [k] + after
    ensures Remove(m, k).keys == before + after
  {
    assert k !in before && k !in after by {
      assert m.keys[|before|] == k;
      forall i | 0 <= i < |before| ensures before[i] != k {
        assert before[i] == m.keys[i];
      }
      forall i | 0 <= i < |after| ensures after[i] != k {
        assert after[i] == m.keys[|before| + 1 + i];
      }
    }
    WithoutAppend(before + [k], after, k);
    WithoutAppend(before, [k], k);
    WithoutAbsent(before, k);
    WithoutAbsent(after, k);
    assert [k][..0] == [];
  }

  /** Adding a fresh key and then unsetting it gives back the same array, order included. */
  lemma PutThenRemove<V>(m: OrderedMap<V>, k: Key, v: V)
    requires Valid(m) && k !in m.entries
    ensures Remove(Put(m, k, v), k) == m
  {
    var p := Put(m, k, v);
    assert p.keys == m.keys + [k];
    assert (m.keys + [k])[..|m.keys|] == m.keys;
    WithoutAbsent(m.keys, k);
    assert p.entries - {k} == m.entries;
  }

  /** Assigning the same value to a key twice is the same as doing it once. */
  lemma PutTwice<V>(m: OrderedMap<V>, k: Key, v: V)
    requires Valid(m)
    ensures Put(Put(m, k, v), k, v) == Put(m, k, v)
  {
  }

  /** The size of a valid ordered map is the length of its key sequence. */
  lemma {:induction false} SizeIsKeyCount<V>(m: OrderedMap<V>)
    requires Valid(m)
    ensures Size(m) == |m.keys|
  {
    var ks := set i | 0 <= i < |m.keys| :: m.keys[i];
    assert ks == m.entries.Keys;
    DistinctCard(m.keys);
  }

  lemma {:induction false} DistinctCard(s: seq<Key>)
    requires Distinct(s)
    ensures |set i | 0 <= i < |s| :: s[i]| == |s|
  {
    if s != [] {
      var init := s[..|s| - 1];
      assert Distinct(init);
      DistinctCard(init);
      var a := set i | 0 <= i < |init| :: init[i];
      var b := set i | 0 <= i < |s| :: s[i];
      assert b == a + {s[|s| - 1]};
      assert s[|s| - 1] !in a;
    }
  }
}
