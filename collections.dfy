/** The JavaScript collection idioms the core relies on: `slice` and the
    insertion-ordered `Map` used to remove duplicates. */
module Collections {

  /** `s.slice(0, n)`: the first n elements, or all of them when there are fewer. */
  function Take<T>(s: seq<T>, n: nat): (r: seq<T>)
    ensures |r| == if |s| < n then |s| else n
    ensures r == s[..|r|]
  {
    if |s| <= n then s else s[..n]
  }

  /** `s.slice(-n)` for n > 0: the last n elements, or all of them when there are fewer. */
  function TakeLast<T>(s: seq<T>, n: nat): (r: seq<T>)
    ensures |r| == if |s| < n then |s| else n
    ensures r == s[|s| - |r|..]
  {
    if |s| <= n then s else s[|s| - n..]
  }

  predicate DistinctKeys<T, K(==)>(s: seq<T>, key: T -> K) {
    forall i, j :: 0 <= i < j < |s| ==> key(s[i]) != key(s[j])
  }

  /** A JavaScript `Map`: its keys in insertion order and the value each key holds. */
  datatype OrderedMap<K(==), V> = OrderedMap(keys: seq<K>, entries: map<K, V>)

  ghost predicate Valid<K(!new), V>(m: OrderedMap<K, V>) {
    (forall i, j :: 0 <= i < j < |m.keys| ==> m.keys[i] != m.keys[j]) &&
    (forall k :: k in m.entries <==> k in m.keys)
  }

  /** `m.set(k, v)`: a new key is appended; a key already present keeps its
      position and takes the new value. */
  function Set<K(==, !new), V>(m: OrderedMap<K, V>, k: K, v: V): (r: OrderedMap<K, V>)
    requires Valid(m)
    ensures Valid(r)
    ensures k in r.entries && r.entries[k] == v
    ensures forall j :: j in r.entries && j != k <==> j in m.entries && j != k
    ensures forall j :: j in m.entries && j != k ==> r.entries[j] == m.entries[j]
    ensures |m.keys| <= |r.keys| && r.keys[..|m.keys|] == m.keys
    ensures |r.keys| == |m.keys| + 1 <==> k !in m.entries
  {
    if k in m.entries then OrderedMap(m.keys, m.entries[k := v])
    else OrderedMap(m.keys + [k], m.entries[k := v])
  }

  /** Setting a key the map does not hold appends it to the key order. */
  lemma SetNewKey<K(!new), V>(m: OrderedMap<K, V>, k: K, v: V)
    requires Valid(m) && k !in m.entries
    ensures Set(m, k, v).keys == m.keys + [k]
  {
    var r := Set(m, k, v);
    assert k in r.keys && k !in m.keys;
    var i :| 0 <= i < |r.keys| && r.keys[i] == k;
    assert i == |m.keys|;
  }

  /** `new Map(entries)`: set every entry, left to right. */
  function FromEntries<K(==, !new), V>(es: seq<(K, V)>): (r: OrderedMap<K, V>)
    ensures Valid(r)
  {
    if es == [] then OrderedMap([], map[])
    else Set(FromEntries(es[..|es| - 1]), es[|es| - 1].0, es[|es| - 1].1)
  }

  /** `Array.from(m.values())`: the values in key-insertion order. */
  function Values<K(==, !new), V>(m: OrderedMap<K, V>): (r: seq<V>)
    requires Valid(m)
    ensures |r| == |m.keys|
    ensures forall k :: k in m.entries ==> m.entries[k] in r
    ensures forall v :: v in r ==> exists k :: k in m.entries && m.entries[k] == v
  {
    var r := seq(|m.keys|, i requires 0 <= i < |m.keys| => m.entries[m.keys[i]]);
    ValuesCover(m, r);
    r
  }

  /** A list holding each key's value at the key's position holds every value
      of the map. */
  lemma ValuesCover<K(!new), V>(m: OrderedMap<K, V>, r: seq<V>)
    requires Valid(m) && |r| == |m.keys|
    requires forall i :: 0 <= i < |r| ==> r[i] == m.entries[m.keys[i]]
    ensures forall k :: k in m.entries ==> m.entries[k] in r
  {
    forall k | k in m.entries ensures m.entries[k] in r {
      var i :| 0 <= i < |m.keys| && m.keys[i] == k;
      assert r[i] == m.entries[k];
    }
  }

  /** `s.map(x => [key(x), x])`. */
  function Entries<T, K(==)>(s: seq<T>, key: T -> K): (es: seq<(K, T)>)
    ensures |es| == |s|
    ensures forall e :: e in es ==> e.0 == key(e.1) && e.1 in s
    ensures forall x :: x in s ==> (key(x), x) in es
  {
    var es := seq(|s|, i requires 0 <= i < |s| => (key(s[i]), s[i]));
    EntriesCover(s, key, es);
    es
  }

  /** A list pairing each element with its key, position by position, holds
      the pair of every element. */
  lemma EntriesCover<T, K>(s: seq<T>, key: T -> K, es: seq<(K, T)>)
    requires |es| == |s| && forall i :: 0 <= i < |s| ==> es[i] == (key(s[i]), s[i])
    ensures forall x :: x in s ==> (key(x), x) in es
  {
    forall x | x in s ensures (key(x), x) in es {
      var i :| 0 <= i < |s| && s[i] == x;
      assert es[i] == (key(x), x);
    }
  }

  /** `Array.from(new Map(s.map(x => [key(x), x])).values())`. */
  function DedupBy<T, K(==, !new)>(s: seq<T>, key: T -> K): seq<T> {
    Values(FromEntries(Entries(s, key)))
  }

  /** Inserting entries whose keys are pairwise distinct records every key once,
      in order, with its own value. */
  lemma {:induction false} FromDistinctEntries<K(!new), V>(es: seq<(K, V)>)
    requires forall i, j :: 0 <= i < j < |es| ==> es[i].0 != es[j].0
    ensures |FromEntries(es).keys| == |es|
    ensures forall i :: 0 <= i < |es| ==>
      FromEntries(es).keys[i] == es[i].0 && FromEntries(es).entries[es[i].0] == es[i].1
  {
    if es != [] {
      var init := es[..|es| - 1];
      var k, v := es[|es| - 1].0, es[|es| - 1].1;
      assert es == init + [(k, v)];
      FromDistinctEntries(init);
      var m := FromEntries(init);
      assert k !in m.entries by {
        forall i | 0 <= i < |init| ensures m.keys[i] != k {
          assert init[i] == es[i];
        }
      }
      AppendEntry(init, m, k, v);
    }
  }

  /** The induction step of `FromDistinctEntries`: setting a new key after a
      map that records `init` records `init` followed by that entry. */
  lemma AppendEntry<K(!new), V>(init: seq<(K, V)>, m: OrderedMap<K, V>, k: K, v: V)
    requires Valid(m) && k !in m.entries && |m.keys| == |init|
    requires forall i :: 0 <= i < |init| ==> m.keys[i] == init[i].0 && m.entries[init[i].0] == init[i].1
    ensures var r, es := Set(m, k, v), init + [(k, v)];
      |r.keys| == |es| &&
      forall i :: 0 <= i < |es| ==> r.keys[i] == es[i].0 && r.entries[es[i].0] == es[i].1
  {
    SetNewKey(m, k, v);
    var r, es := Set(m, k, v), init + [(k, v)];
    forall i | 0 <= i < |es| ensures r.keys[i] == es[i].0 && r.entries[es[i].0] == es[i].1 {
      if i < |init| {
        assert es[i] == init[i] && r.keys[i] == m.keys[i];
      }
    }
  }

  /** When the keys are pairwise distinct the Map round trip removes nothing
      and keeps the order. */
  lemma DedupByDistinct<T, K(!new)>(s: seq<T>, key: T -> K)
    requires DistinctKeys(s, key)
    ensures DedupBy(s, key) == s
  {
    var es := Entries(s, key);
    FromDistinctEntries(es);
  }

  /** Whatever the input, the Map round trip leaves at most one element per key. */
  lemma DedupByDistinctResult<T, K(!new)>(s: seq<T>, key: T -> K)
    ensures DistinctKeys(DedupBy(s, key), key)
  {
    var es := Entries(s, key);
    var m := FromEntries(es);
    FromEntriesHoldsKeys(es);
    var r := DedupBy(s, key);
    forall i, j | 0 <= i < j < |r| ensures key(r[i]) != key(r[j]) {
      assert key(r[i]) == m.keys[i] && key(r[j]) == m.keys[j];
    }
  }

  /** Every key of `new Map(entries)` holds the value of an entry with that key. */
  lemma {:induction false} FromEntriesHoldsKeys<K(!new), V>(es: seq<(K, V)>)
    ensures forall k :: k in FromEntries(es).entries ==> (k, FromEntries(es).entries[k]) in es
  {
    if es != [] {
      FromEntriesHoldsKeys(es[..|es| - 1]);
      forall k | k in FromEntries(es).entries ensures (k, FromEntries(es).entries[k]) in es {
        if k != es[|es| - 1].0 {
          assert (k, FromEntries(es[..|es| - 1]).entries[k]) in es[..|es| - 1];
        }
      }
    }
  }
}
