/**
 * An insertion-ordered finite map, the value semantics of a JavaScript `Map`: `set` on a
 * present key keeps its position, `set` on a new key appends it, `delete` removes it, and
 * `values()`/`forEach` visit the entries in key order.
 */
module OrderedMap {

  datatype OrdMap<K(==), V> = OrdMap(keys: seq<K>, entries: map<K, V>)

  /** The key order lists every key of the map exactly once. */
  ghost predicate Valid<K, V>(m: OrdMap<K, V>) {
    && (forall i, j | 0 <= i < j < |m.keys| :: m.keys[i] != m.keys[j])
    && (forall k | k in m.entries :: k in m.keys)
    && (forall i | 0 <= i < |m.keys| :: m.keys[i] in m.entries)
  }

  function Empty<K(==), V>(): (r: OrdMap<K, V>)
    ensures Valid(r) && r.entries == map[]
  {
    OrdMap([], map[])
  }

  /** `m.set(k, v)`. */
  function Put<K(==), V>(m: OrdMap<K, V>, k: K, v: V): (r: OrdMap<K, V>)
    ensures r.entries == m.entries[k := v]
    ensures k in m.entries ==> r.keys == m.keys
    ensures k !in m.entries ==> r.keys == m.keys + [k]
    ensures Valid(m) ==> Valid(r)
  {
    if k in m.entries then OrdMap(m.keys, m.entries[k := v])
    else OrdMap(m.keys + [k], m.entries[k := v])
  }

  /** `x` occurs in `ks` at an earlier position than `y`. */
  ghost predicate Before<K>(ks: seq<K>, x: K, y: K) {
    exists a, b | 0 <= a < b < |ks| :: ks[a] == x && ks[b] == y
  }

  /** Any two elements of `r` occur in `ks` in the same relative order. */
  ghost predicate KeepsOrder<K>(r: seq<K>, ks: seq<K>) {
    forall i, j | 0 <= i < j < |r| :: Before(ks, r[i], r[j])
  }

  /** `ks` without any occurrence of `k`, order kept. */
  function Without<K(==)>(ks: seq<K>, k: K): (r: seq<K>)
    ensures forall x | x in r :: x in ks && x != k
    ensures forall x | x in ks && x != k :: x in r
    ensures (forall i, j | 0 <= i < j < |ks| :: ks[i] != ks[j]) ==> (forall i, j | 0 <= i < j < |r| :: r[i] != r[j])
    ensures KeepsOrder(r, ks)
  {
    if ks == [] then []
    else
      var rest := Without(ks[1..], k);
      assert ks == [ks[0]] + ks[1..];
      if ks[0] == k then
        assert KeepsOrder(rest, ks) by { ShiftOrder(rest, ks); }
        rest
      else
        assert (forall i, j | 0 <= i < j < |ks| :: ks[i] != ks[j]) ==> ks[0] !in ks[1..];
        assert KeepsOrder([ks[0]] + rest, ks) by { ConsOrder(rest, ks); }
        [ks[0]] + rest
  }

  /** Order kept against the tail of `ks` is order kept against `ks`. */
  lemma ShiftOrder<K>(r: seq<K>, ks: seq<K>)
    requires ks != [] && KeepsOrder(r, ks[1..])
    ensures KeepsOrder(r, ks)
  {
    forall i, j | 0 <= i < j < |r|
      ensures Before(ks, r[i], r[j])
    {
      var a, b :| 0 <= a < b < |ks[1..]| && ks[1..][a] == r[i] && ks[1..][b] == r[j];
      assert 0 <= a + 1 < b + 1 < |ks| && ks[a + 1] == r[i] && ks[b + 1] == r[j];
    }
  }

  /** Putting the head of `ks` before a list drawn in order from its tail keeps the order. */
  lemma ConsOrder<K>(r: seq<K>, ks: seq<K>)
    requires ks != [] && KeepsOrder(r, ks[1..]) && forall x | x in r :: x in ks[1..]
    ensures KeepsOrder([ks[0]] + r, ks)
  {
    var r' := [ks[0]] + r;
    forall i, j | 0 <= i < j < |r'|
      ensures Before(ks, r'[i], r'[j])
    {
      if i == 0 {
        assert r'[j] == r[j - 1] && r[j - 1] in ks[1..];
        var b :| 0 <= b < |ks[1..]| && ks[1..][b] == r[j - 1];
        assert ks[0] == r'[i] && ks[b + 1] == r'[j];
      } else {
        assert r'[i] == r[i - 1] && r'[j] == r[j - 1];
        var a, b :| 0 <= a < b < |ks[1..]| && ks[1..][a] == r[i - 1] && ks[1..][b] == r[j - 1];
        assert ks[a + 1] == r'[i] && ks[b + 1] == r'[j];
      }
    }
  }

  /** `m.delete(k)`. */
  function Remove<K(==), V>(m: OrdMap<K, V>, k: K): (r: OrdMap<K, V>)
    ensures r.entries == m.entries - {k}
    ensures forall x | x in r.keys :: x in m.keys && x != k
    ensures forall x | x in m.keys && x != k :: x in r.keys
    ensures KeepsOrder(r.keys, m.keys)
    ensures Valid(m) ==> Valid(r)
  {
    var r := OrdMap(Without(m.keys, k), m.entries - {k});
    assert Valid(m) ==> Valid(r) by {
      if Valid(m) {
        forall i | 0 <= i < |r.keys|
          ensures r.keys[i] in r.entries
        {
          assert r.keys[i] in m.keys;
        }
      }
    }
    r
  }

  function ValuesOf<K(==), V>(ks: seq<K>, e: map<K, V>): (r: seq<V>)
    ensures |r| <= |ks|
    ensures (forall k | k in ks :: k in e) ==> |r| == |ks| && forall i | 0 <= i < |ks| :: r[i] == e[ks[i]]
  {
    if ks == [] then []
    else (if ks[0] in e then [e[ks[0]]] else []) + ValuesOf(ks[1..], e)
  }

  /** `Array.from(m.values())`: the values in key order. */
  function Values<K(==), V>(m: OrdMap<K, V>): (r: seq<V>)
    ensures Valid(m) ==> |r| == |m.keys| && forall i | 0 <= i < |r| :: r[i] == m.entries[m.keys[i]]
  {
    ValuesOf(m.keys, m.entries)
  }

  /** Under `Valid`, a value is listed exactly when some key maps to it. */
  lemma ValuesMembers<K, V>(m: OrdMap<K, V>, v: V)
    requires Valid(m)
    ensures v in Values(m) <==> exists k | k in m.entries :: m.entries[k] == v
  {
    var r := Values(m);
    if v in r {
      var i :| 0 <= i < |r| && r[i] == v;
      assert m.entries[m.keys[i]] == v;
    }
    if exists k | k in m.entries :: m.entries[k] == v {
      var k :| k in m.entries && m.entries[k] == v;
      var i :| 0 <= i < |m.keys| && m.keys[i] == k;
      assert r[i] == v;
    }
  }

  /** A key's value appears among the values. */
  lemma ValueListed<K, V>(m: OrdMap<K, V>, k: K)
    requires Valid(m) && k in m.entries
    ensures m.entries[k] in Values(m)
  {
    ValuesMembers(m, m.entries[k]);
  }

  /** A list of distinct keys has as many keys as its set. */
  lemma {:induction false} DistinctCount<K>(ks: seq<K>)
    requires forall i, j | 0 <= i < j < |ks| :: ks[i] != ks[j]
    ensures |set k | k in ks| == |ks|
  {
    if ks != [] {
      DistinctCount(ks[1..]);
      assert (set k | k in ks) == {ks[0]} + (set k | k in ks[1..]);
      assert ks[0] !in (set k | k in ks[1..]);
    }
  }

  /** A valid ordered map lists each of its keys exactly once. */
  lemma KeysCount<K, V>(m: OrdMap<K, V>)
    requires Valid(m)
    ensures |m.keys| == |m.entries|
  {
    DistinctCount(m.keys);
    assert (set k | k in m.keys) == m.entries.Keys;
  }
}
