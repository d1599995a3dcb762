/** What `query` in src/zen.ts computes, as a function of the attribute
    stores: the ids of the pivot store (`include[0]`), in its order, that have
    a value in every other included store and in no excluded store. */
module ZenQuery {
  import opened Wrappers
  import opened JsMap
  import opened QueryCore

  /** An attribute key. The source uses object identity; `SystemKey` is the
      `System` class, which the runtime registers when it loads. */
  datatype AttrKey = SystemKey | Tag(id: nat)

  /** `{include, exclude}`; an absent `exclude` is the empty list. */
  datatype Query = Query(includes: seq<AttrKey>, excludes: seq<AttrKey>)

  datatype ZenError =
    | UndefinedAttribute(key: AttrKey)  // getAttribute of an unregistered key
    | UndefinedPivot                    // getAttribute(include[0]) with no include
    | NotASystem                        // the System store holds a value without `update`

  /** The checks made for one candidate: includes from position 1, then,
      only if they all passed, the excludes. */
  function Matches<V>(stores: map<AttrKey, OrderedMap<nat, V>>, q: Query, id: nat): Result<bool, ZenError> {
    match IncludesFrom(stores, q.includes, id, 1)
    case Err(k) => Err(UndefinedAttribute(k))
    case Ok(false) => Ok(false)
    case Ok(true) =>
      match ExcludesFrom(stores, q.excludes, id, 0)
      case Err(k) => Err(UndefinedAttribute(k))
      case Ok(b) => Ok(b)
  }

  /** The scan over the first `n` candidates of `order`: the matches so far,
      or the first error thrown. */
  function Scan<V>(stores: map<AttrKey, OrderedMap<nat, V>>, q: Query, order: seq<nat>, n: nat): Result<seq<nat>, ZenError>
    requires n <= |order|
  {
    if n == 0 then Ok([])
    else
      match Scan(stores, q, order, n - 1)
      case Err(e) => Err(e)
      case Ok(acc) =>
        match Matches(stores, q, order[n - 1])
        case Err(e) => Err(e)
        case Ok(b) => Ok(if b then acc + [order[n - 1]] else acc)
  }

  /** `query(q)`. */
  function Evaluate<V>(stores: map<AttrKey, OrderedMap<nat, V>>, q: Query): Result<seq<nat>, ZenError> {
    if |q.includes| == 0 then Err(UndefinedPivot)
    else if q.includes[0] !in stores then Err(UndefinedAttribute(q.includes[0]))
    else
      var order := stores[q.includes[0]].keys;
      Scan(stores, q, order, |order|)
  }

  ghost predicate WellFormed<V>(stores: map<AttrKey, OrderedMap<nat, V>>, q: Query) {
    |q.includes| > 0 && Defined(stores, q.includes) && Defined(stores, q.excludes)
  }

  /** Once the scan has thrown, scanning further candidates does not change
      the outcome. */
  lemma {:induction false} ScanErrSticks<V>(stores: map<AttrKey, OrderedMap<nat, V>>, q: Query, order: seq<nat>, i: nat, n: nat)
    requires i <= n <= |order| && Scan(stores, q, order, i).Err?
    ensures Scan(stores, q, order, n) == Scan(stores, q, order, i)
    decreases n - i
  {
    if i < n {
      ScanErrSticks(stores, q, order, i, n - 1);
    }
  }

  /** With every key defined, the candidate checks agree with the reference
      filter. */
  lemma MatchesDefined<V>(stores: map<AttrKey, OrderedMap<nat, V>>, q: Query, id: nat)
    requires WellFormed(stores, q) && id in stores[q.includes[0]].entries
    ensures Matches(stores, q, id) == Ok(Selected(stores, q.includes, q.excludes, id))
  {
    IncludesFromDefined(stores, q.includes, id, 1);
    ExcludesFromDefined(stores, q.excludes, id, 0);
    assert q.includes == [q.includes[0]] + q.includes[1..];
    assert q.excludes[0..] == q.excludes;
  }

  lemma {:induction false} ScanDefined<V>(stores: map<AttrKey, OrderedMap<nat, V>>, q: Query, n: nat)
    requires WellFormed(stores, q) && stores[q.includes[0]].Valid()
    requires n <= |stores[q.includes[0]].keys|
    ensures var order := stores[q.includes[0]].keys;
      Scan(stores, q, order, n) == Ok(Filtered(stores, q.includes, q.excludes, order[..n]))
  {
    var order := stores[q.includes[0]].keys;
    if n > 0 {
      ScanDefined(stores, q, n - 1);
      assert order[n - 1] in order;
      MatchesDefined(stores, q, order[n - 1]);
      FilteredPrefix(stores, q.includes, q.excludes, order, n);
      var acc := Filtered(stores, q.includes, q.excludes, order[..n - 1]);
      assert acc + [] == acc;
    } else {
      assert order[..n] == [];
    }
  }

  /** A well-formed query never throws and returns exactly the filtered pivot
      order. */
  lemma QueryIsFilter<V>(stores: map<AttrKey, OrderedMap<nat, V>>, q: Query)
    requires WellFormed(stores, q) && stores[q.includes[0]].Valid()
    ensures var order := stores[q.includes[0]].keys;
      Evaluate(stores, q) == Ok(Filtered(stores, q.includes, q.excludes, order))
  {
    var order := stores[q.includes[0]].keys;
    ScanDefined(stores, q, |order|);
    assert order[..|order|] == order;
  }

  /** Query membership, for a well-formed query (every listed key
      registered): an id is returned iff every included attribute has a
      value for it and no excluded one has; the result has no duplicates. */
  lemma QueryMembership<V>(stores: map<AttrKey, OrderedMap<nat, V>>, q: Query, id: nat)
    requires WellFormed(stores, q) && stores[q.includes[0]].Valid()
    ensures Evaluate(stores, q).Ok?
    ensures Distinct(Evaluate(stores, q).value)
    ensures id in Evaluate(stores, q).value <==> Selected(stores, q.includes, q.excludes, id)
  {
    var order := stores[q.includes[0]].keys;
    QueryIsFilter(stores, q);
    FilteredMembers(stores, q.includes, q.excludes, order, id);
    FilteredDistinct(stores, q.includes, q.excludes, order);
  }

  /** For well-formed queries (every listed key registered), the result set
      does not depend on which included attribute is listed first (the
      pivot), nor on the order of either list. */
  lemma QueryPivotIndependent<V>(stores: map<AttrKey, OrderedMap<nat, V>>, q: Query, q': Query)
    requires WellFormed(stores, q) && stores[q.includes[0]].Valid()
    requires WellFormed(stores, q') && stores[q'.includes[0]].Valid()
    requires multiset(q.includes) == multiset(q'.includes)
    requires multiset(q.excludes) == multiset(q'.excludes)
    ensures Evaluate(stores, q).Ok? && Evaluate(stores, q').Ok?
    ensures forall id :: id in Evaluate(stores, q).value <==> id in Evaluate(stores, q').value
  {
    QueryMembership(stores, q, 0);
    QueryMembership(stores, q', 0);
    forall id ensures id in Evaluate(stores, q).value <==> id in Evaluate(stores, q').value {
      QueryMembership(stores, q, id);
      QueryMembership(stores, q', id);
      assert forall k :: k in q.includes <==> k in multiset(q.includes);
      assert forall k :: k in q'.includes <==> k in multiset(q'.includes);
      assert forall k :: k in q.excludes <==> k in multiset(q.excludes);
      assert forall k :: k in q'.excludes <==> k in multiset(q'.excludes);
    }
  }

  /** When a listed key is unregistered, the pivot decides the outcome: with
      an empty registered pivot no candidate reaches the unregistered key,
      while an unregistered pivot throws at once. */
  lemma PivotOrderDecidesError()
    ensures var stores := map[Tag(0) := Empty<nat, int>()];
      && Evaluate(stores, Query([Tag(0), Tag(1)], [])) == Ok([])
      && Evaluate(stores, Query([Tag(1), Tag(0)], [])) == Err(UndefinedAttribute(Tag(1)))
  {
  }

  /** A candidate check throws only at a listed key that is unregistered. */
  lemma MatchesErr<V>(stores: map<AttrKey, OrderedMap<nat, V>>, q: Query, id: nat)
    requires Matches(stores, q, id).Err?
    ensures Matches(stores, q, id).error.UndefinedAttribute?
    ensures var k := Matches(stores, q, id).error.key;
      (k in q.includes || k in q.excludes) && k !in stores
  {
    if IncludesFrom(stores, q.includes, id, 1).Err? {
      IncludesFromErr(stores, q.includes, id, 1);
    } else {
      ExcludesFromErr(stores, q.excludes, id, 0);
    }
  }

  /** The scan throws only at a listed key that is unregistered. */
  lemma {:induction false} ScanErr<V>(stores: map<AttrKey, OrderedMap<nat, V>>, q: Query, order: seq<nat>, n: nat)
    requires n <= |order| && Scan(stores, q, order, n).Err?
    ensures Scan(stores, q, order, n).error.UndefinedAttribute?
    ensures var k := Scan(stores, q, order, n).error.key;
      (k in q.includes || k in q.excludes) && k !in stores
  {
    if Scan(stores, q, order, n - 1).Err? {
      ScanErr(stores, q, order, n - 1);
    } else {
      MatchesErr(stores, q, order[n - 1]);
    }
  }

  /** `query` throws only for a missing pivot or a key that is really
      unregistered, and it names that key. */
  lemma QueryErrorNamesUndefinedKey<V>(stores: map<AttrKey, OrderedMap<nat, V>>, q: Query)
    requires Evaluate(stores, q).Err?
    ensures Evaluate(stores, q).error == UndefinedPivot <==> |q.includes| == 0
    ensures Evaluate(stores, q).error.UndefinedAttribute? ==>
      var k := Evaluate(stores, q).error.key;
      (k in q.includes || k in q.excludes) && k !in stores
  {
    if |q.includes| > 0 && q.includes[0] in stores {
      var order := stores[q.includes[0]].keys;
      ScanErr(stores, q, order, |order|);
    }
  }
}
