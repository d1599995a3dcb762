/** The includes/excludes filter both runtimes share. A query seeds its
    candidates from the instances of one attribute (the pivot), keeps a
    candidate when every required attribute has a value for it, and drops it
    when any excluded attribute has one. Attribute stores are looked up by key
    as the scan reaches them, so an undefined key is reported only when some
    candidate gets that far. */
module QueryCore {
  import opened Wrappers
  import opened JsMap

  /** The required attributes from position `j` on: `Ok(false)` at the first
      one without a value for `id`, `Err(k)` at the first undefined key `k`. */
  function IncludesFrom<K(==, !new), V>(stores: map<K, OrderedMap<nat, V>>, includes: seq<K>, id: nat, j: nat): Result<bool, K>
    decreases |includes| - j
  {
    if j >= |includes| then Ok(true)
    else if includes[j] !in stores then Err(includes[j])
    else if id !in stores[includes[j]].entries then Ok(false)
    else IncludesFrom(stores, includes, id, j + 1)
  }

  /** The excluded attributes from position `j` on: `Ok(false)` at the first
      one that has a value for `id`, `Err(k)` at the first undefined key. */
  function ExcludesFrom<K(==, !new), V>(stores: map<K, OrderedMap<nat, V>>, excludes: seq<K>, id: nat, j: nat): Result<bool, K>
    decreases |excludes| - j
  {
    if j >= |excludes| then Ok(true)
    else if excludes[j] !in stores then Err(excludes[j])
    else if id in stores[excludes[j]].entries then Ok(false)
    else ExcludesFrom(stores, excludes, id, j + 1)
  }

  ghost predicate Defined<K(!new), V>(stores: map<K, OrderedMap<nat, V>>, keys: seq<K>) {
    forall k :: k in keys ==> k in stores
  }

  /** `id` has a value in every store named in `keys`. */
  ghost predicate HasAll<K(!new), V>(stores: map<K, OrderedMap<nat, V>>, keys: seq<K>, id: nat)
    requires Defined(stores, keys)
  {
    forall k :: k in keys ==> id in stores[k].entries
  }

  /** `id` has a value in no store named in `keys`. */
  ghost predicate HasNone<K(!new), V>(stores: map<K, OrderedMap<nat, V>>, keys: seq<K>, id: nat)
    requires Defined(stores, keys)
  {
    forall k :: k in keys ==> id !in stores[k].entries
  }

  /** The reference filter: what a query with these lists means. */
  ghost predicate Selected<K(!new), V>(stores: map<K, OrderedMap<nat, V>>, includes: seq<K>, excludes: seq<K>, id: nat)
    requires Defined(stores, includes) && Defined(stores, excludes)
  {
    HasAll(stores, includes, id) && HasNone(stores, excludes, id)
  }

  /** The selected ids of `order`, in that order. */
  ghost function Filtered<K(!new), V>(stores: map<K, OrderedMap<nat, V>>, includes: seq<K>, excludes: seq<K>, order: seq<nat>): seq<nat>
    requires Defined(stores, includes) && Defined(stores, excludes)
  {
    if order == [] then []
    else
      var last := order[|order| - 1];
      Filtered(stores, includes, excludes, order[..|order| - 1])
        + (if Selected(stores, includes, excludes, last) then [last] else [])
  }

  /** Extending a prefix of `order` by one id appends that id to the
      filtered list exactly when it is selected. */
  lemma FilteredPrefix<K(!new), V>(stores: map<K, OrderedMap<nat, V>>, includes: seq<K>, excludes: seq<K>, order: seq<nat>, n: nat)
    requires Defined(stores, includes) && Defined(stores, excludes)
    requires 0 < n <= |order|
    ensures Filtered(stores, includes, excludes, order[..n])
      == Filtered(stores, includes, excludes, order[..n - 1])
         + (if Selected(stores, includes, excludes, order[n - 1]) then [order[n - 1]] else [])
  {
    assert order[..n][..n - 1] == order[..n - 1];
    assert order[..n][n - 1] == order[n - 1];
  }

  /** With every key defined, the includes scan from `j` decides exactly
      whether `id` has all of `includes[j..]`. */
  lemma {:induction false} IncludesFromDefined<K(!new), V>(stores: map<K, OrderedMap<nat, V>>, includes: seq<K>, id: nat, j: nat)
    requires j <= |includes| && Defined(stores, includes)
    ensures Defined(stores, includes[j..])
    ensures IncludesFrom(stores, includes, id, j) == Ok(HasAll(stores, includes[j..], id))
    decreases |includes| - j
  {
    if j < |includes| {
      IncludesFromDefined(stores, includes, id, j + 1);
      assert includes[j..] == [includes[j]] + includes[j + 1..];
    }
  }

  /** With every key defined, the excludes scan from `j` decides exactly
      whether `id` has none of `excludes[j..]`. */
  lemma {:induction false} ExcludesFromDefined<K(!new), V>(stores: map<K, OrderedMap<nat, V>>, excludes: seq<K>, id: nat, j: nat)
    requires j <= |excludes| && Defined(stores, excludes)
    ensures Defined(stores, excludes[j..])
    ensures ExcludesFrom(stores, excludes, id, j) == Ok(HasNone(stores, excludes[j..], id))
    decreases |excludes| - j
  {
    if j < |excludes| {
      ExcludesFromDefined(stores, excludes, id, j + 1);
      assert excludes[j..] == [excludes[j]] + excludes[j + 1..];
    }
  }

  /** A scan only ever reports a key that is really undefined. */
  lemma {:induction false} IncludesFromErr<K(!new), V>(stores: map<K, OrderedMap<nat, V>>, includes: seq<K>, id: nat, j: nat)
    requires IncludesFrom(stores, includes, id, j).Err?
    ensures IncludesFrom(stores, includes, id, j).error in includes
    ensures IncludesFrom(stores, includes, id, j).error !in stores
    decreases |includes| - j
  {
    if includes[j] in stores {
      IncludesFromErr(stores, includes, id, j + 1);
    }
  }

  lemma {:induction false} ExcludesFromErr<K(!new), V>(stores: map<K, OrderedMap<nat, V>>, excludes: seq<K>, id: nat, j: nat)
    requires ExcludesFrom(stores, excludes, id, j).Err?
    ensures ExcludesFrom(stores, excludes, id, j).error in excludes
    ensures ExcludesFrom(stores, excludes, id, j).error !in stores
    decreases |excludes| - j
  {
    if excludes[j] in stores {
      ExcludesFromErr(stores, excludes, id, j + 1);
    }
  }

  /** Membership of the filtered list: exactly the selected ids of `order`. */
  lemma {:induction false} FilteredMembers<K(!new), V>(stores: map<K, OrderedMap<nat, V>>, includes: seq<K>, excludes: seq<K>, order: seq<nat>, id: nat)
    requires Defined(stores, includes) && Defined(stores, excludes)
    ensures id in Filtered(stores, includes, excludes, order) <==> id in order && Selected(stores, includes, excludes, id)
  {
    if order != [] {
      var init := order[..|order| - 1];
      FilteredMembers(stores, includes, excludes, init, id);
      assert order == init + [order[|order| - 1]];
    }
  }

  /** The filtered list never repeats an id when the order does not. */
  lemma {:induction false} FilteredDistinct<K(!new), V>(stores: map<K, OrderedMap<nat, V>>, includes: seq<K>, excludes: seq<K>, order: seq<nat>)
    requires Defined(stores, includes) && Defined(stores, excludes)
    requires Distinct(order)
    ensures Distinct(Filtered(stores, includes, excludes, order))
  {
    if order != [] {
      var init := order[..|order| - 1];
      var last := order[|order| - 1];
      FilteredDistinct(stores, includes, excludes, init);
      FilteredMembers(stores, includes, excludes, init, last);
      assert last !in init by {
        forall i | 0 <= i < |init| ensures init[i] != last {
          assert init[i] == order[i];
        }
      }
    }
  }
}
