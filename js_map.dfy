/** A JavaScript `Map`: an association that remembers the order in which its
    keys were first inserted. Re-setting a present key keeps its position;
    deleting a key and setting it again moves it to the end. Iteration
    (`keys()`, `values()`, `entries()`) follows `keys`. */
module JsMap {
  import opened Wrappers

  ghost predicate Distinct<K>(s: seq<K>) {
    forall i, j :: 0 <= i < j < |s| ==> s[i] != s[j]
  }

  datatype OrderedMap<K(==, !new), V> = OrderedMap(keys: seq<K>, entries: map<K, V>)
  {
    /** The order lists every key exactly once. */
    ghost predicate Valid() {
      Distinct(keys) && forall k :: k in entries <==> k in keys
    }

    /** `map.get(k)`: the stored value, or `undefined`. */
    function Get(k: K): Option<V> {
      if k in entries then Some(entries[k]) else None
    }

    /** `map.set(k, v)`. */
    function Set(k: K, v: V): (r: OrderedMap<K, V>)
      requires Valid()
      ensures r.Valid()
      ensures r.Get(k) == Some(v)
      ensures forall k' :: k' != k ==> r.Get(k') == Get(k')
      ensures k in entries ==> r.keys == keys
      ensures k !in entries ==> r.keys == keys + [k]
    {
      if k in entries then OrderedMap(keys, entries[k := v])
      else OrderedMap(keys + [k], entries[k := v])
    }

    /** `map.delete(k)`. */
    function Delete(k: K): (r: OrderedMap<K, V>)
      requires Valid()
      ensures r.Valid()
      ensures r.Get(k) == None
      ensures forall k' :: k' != k ==> r.Get(k') == Get(k')
      ensures r.keys == Without(keys, k)
      ensures k !in entries ==> r == this
    {
      OrderedMap(Without(keys, k), entries - {k})
    }

    /** `[...map.values()]`: the values in key order. */
    function Values(): (vs: seq<V>)
      requires Valid()
      ensures |vs| == |keys|
      ensures forall i :: 0 <= i < |keys| ==> vs[i] == entries[keys[i]]
    {
      seq(|keys|, i requires 0 <= i < |keys| => entries[keys[i]])
    }
  }

  function Empty<K(==, !new), V>(): (m: OrderedMap<K, V>)
    ensures m.Valid() && forall k :: m.Get(k) == None
  {
    OrderedMap([], map[])
  }

  /** `s` with every occurrence of `k` dropped, the rest in order. */
  function Without<K(==, !new)>(s: seq<K>, k: K): (r: seq<K>)
    ensures forall x :: x in r <==> x in s && x != k
    ensures |r| <= |s|
    ensures Distinct(s) ==> Distinct(r)
    ensures k !in s ==> r == s
  {
    if s == [] then []
    else
      var rest := Without(s[1..], k);
      assert Distinct(s) ==> s[0] !in s[1..];
      (if s[0] == k then [] else [s[0]]) + rest
  }

  /** Deleting a key takes it out of the order and leaves every other key
      where it was. */
  lemma {:induction false} WithoutSplice<K(!new)>(a: seq<K>, k: K, b: seq<K>)
    requires k !in a && k !in b
    ensures Without(a + [k] + b, k) == a + b
  {
    if a == [] {
      assert (a + [k] + b)[1..] == b;
    } else {
      assert (a + [k] + b)[1..] == a[1..] + [k] + b;
      WithoutSplice(a[1..], k, b);
      assert a + b == [a[0]] + (a[1..] + b);
    }
  }

  /** Re-setting a present key keeps its position; deleting it first and then
      setting it moves it to the end of the iteration order. */
  lemma DeleteThenSetMovesToEnd<K(!new), V>(m: OrderedMap<K, V>, a: seq<K>, k: K, b: seq<K>, v: V)
    requires m.Valid() && m.keys == a + [k] + b
    ensures m.Set(k, v).keys == m.keys
    ensures m.Delete(k).Set(k, v).keys == a + b + [k]
  {
    forall i | 0 <= i < |a| ensures a[i] != k {
      assert a[i] == m.keys[i] && k == m.keys[|a|];
    }
    forall i | 0 <= i < |b| ensures b[i] != k {
      assert b[i] == m.keys[|a| + 1 + i] && k == m.keys[|a|];
    }
    WithoutSplice(a, k, b);
  }

  /** `values()` after `set(k, v)`: a present key's value is replaced in
      place and nothing else moves; a new key's value is appended. */
  lemma SetValues<K(!new), V>(m: OrderedMap<K, V>, k: K, v: V)
    requires m.Valid()
    ensures k in m.entries ==>
      && |m.Set(k, v).Values()| == |m.Values()|
      && forall i :: 0 <= i < |m.keys| ==>
           m.Set(k, v).Values()[i] == if m.keys[i] == k then v else m.Values()[i]
    ensures k !in m.entries ==> m.Set(k, v).Values() == m.Values() + [v]
  {
  }
}
