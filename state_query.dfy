/** What `Database.query` in src/state.ts computes, as a function of the
    attribute stores: one view per id of the pivot store (`include[0]`), in
    that store's order, for the ids that have every other included attribute
    and no excluded one. A view carries the id and, under each attribute's
    name, the pivot value, the included values and the optional values
    (`undefined`, here `None`, when absent). */
module StateQuery {
  import opened Wrappers
  import opened JsMap
  import opened QueryCore

  /** An attribute value; the runtime stores and returns it without looking
      inside. */
  type Value = nat

  /** `{include, exclude?, optional?}`; an absent list is the empty list. */
  datatype SQuery = SQuery(includes: seq<string>, excludes: seq<string>, optionals: seq<string>)

  /** `{id, attributes}`: `attributes` maps a name to its value, and an
      optional attribute without a value is present with `undefined`. */
  datatype EntityView = EntityView(id: nat, attributes: map<string, Option<Value>>)

  datatype StateError =
    | UndefinedAttribute(name: string)  // getAttribute of an unknown name
    | UndefinedWorld(name: string)      // getDatabase of an unknown name

  /** The name `query` looks up first. With no include, `include[0]` is
      `undefined`, which as a property key is the string "undefined". */
  function PivotName(q: SQuery): string {
    if |q.includes| == 0 then "undefined" else q.includes[0]
  }

  /** The included names after the pivot. */
  function Rest(q: SQuery): (r: seq<string>)
    ensures |q.includes| > 0 ==> q.includes == [q.includes[0]] + r
    ensures |q.includes| == 0 ==> r == []
  {
    if |q.includes| == 0 then [] else q.includes[1..]
  }

  /** The first name from position `j` on that has no store, if any: the
      point where a loop calling `getAttribute` on each name throws. */
  function FirstUndefined(stores: map<string, OrderedMap<nat, Value>>, names: seq<string>, j: nat): Option<string>
    decreases |names| - j
  {
    if j >= |names| then None
    else if names[j] !in stores then Some(names[j])
    else FirstUndefined(stores, names, j + 1)
  }

  /** `ent.attributes[attr.name] = attr.instances.get(id)` for each name of
      `names` in turn, starting from `acc`. */
  function Record(stores: map<string, OrderedMap<nat, Value>>, names: seq<string>, id: nat,
                  acc: map<string, Option<Value>>): map<string, Option<Value>>
  {
    if |names| == 0 then acc
    else
      var m := Record(stores, names[..|names| - 1], id, acc);
      var k := names[|names| - 1];
      if k in stores then m[k := stores[k].Get(id)] else m
  }

  /** The view built for a candidate that passed every check. */
  function ViewOf(stores: map<string, OrderedMap<nat, Value>>, q: SQuery, id: nat): EntityView {
    var p := PivotName(q);
    var base := if p in stores then map[p := stores[p].Get(id)] else map[];
    EntityView(id, Record(stores, q.optionals, id, Record(stores, Rest(q), id, base)))
  }

  /** The checks made for one candidate of the pivot store: the includes
      after the pivot, then the excludes, then the optionals, each only if
      the previous ones passed. */
  function Candidate(stores: map<string, OrderedMap<nat, Value>>, q: SQuery, id: nat): Result<Option<EntityView>, StateError> {
    match IncludesFrom(stores, q.includes, id, 1)
    case Err(k) => Err(UndefinedAttribute(k))
    case Ok(false) => Ok(None)
    case Ok(true) =>
      match ExcludesFrom(stores, q.excludes, id, 0)
      case Err(k) => Err(UndefinedAttribute(k))
      case Ok(false) => Ok(None)
      case Ok(true) =>
        match FirstUndefined(stores, q.optionals, 0)
        case Some(k) => Err(UndefinedAttribute(k))
        case None => Ok(Some(ViewOf(stores, q, id)))
  }

  /** The scan over the first `n` candidates of `order`: the views so far,
      or the first error thrown. */
  function Scan(stores: map<string, OrderedMap<nat, Value>>, q: SQuery, order: seq<nat>, n: nat): Result<seq<EntityView>, StateError>
    requires n <= |order|
  {
    if n == 0 then Ok([])
    else
      match Scan(stores, q, order, n - 1)
      case Err(e) => Err(e)
      case Ok(acc) =>
        match Candidate(stores, q, order[n - 1])
        case Err(e) => Err(e)
        case Ok(None) => Ok(acc)
        case Ok(Some(v)) => Ok(acc + [v])
  }

  /** `query(q)`. */
  function Evaluate(stores: map<string, OrderedMap<nat, Value>>, q: SQuery): Result<seq<EntityView>, StateError> {
    var p := PivotName(q);
    if p !in stores then Err(UndefinedAttribute(p))
    else
      var order := stores[p].keys;
      Scan(stores, q, order, |order|)
  }

  /** Every name the query mentions has a store. */
  ghost predicate WellFormed(stores: map<string, OrderedMap<nat, Value>>, q: SQuery) {
    && PivotName(q) in stores && stores[PivotName(q)].Valid()
    && Defined(stores, q.includes) && Defined(stores, q.excludes) && Defined(stores, q.optionals)
  }

  function Ids(views: seq<EntityView>): (ids: seq<nat>)
    ensures |ids| == |views|
    ensures forall i :: 0 <= i < |views| ==> ids[i] == views[i].id
  {
    seq(|views|, i requires 0 <= i < |views| => views[i].id)
  }

  /** The views of `ids`, in order. */
  function ViewsOf(stores: map<string, OrderedMap<nat, Value>>, q: SQuery, ids: seq<nat>): (vs: seq<EntityView>)
    ensures |vs| == |ids|
    ensures forall i :: 0 <= i < |ids| ==> vs[i] == ViewOf(stores, q, ids[i])
  {
    seq(|ids|, i requires 0 <= i < |ids| => ViewOf(stores, q, ids[i]))
  }

  /** The record after writing `names`: each written name holds its store's
      value for `id`, every other entry of `acc` is kept, and nothing else
      appears. */
  lemma {:induction false} RecordContents(stores: map<string, OrderedMap<nat, Value>>, names: seq<string>, id: nat,
                                          acc: map<string, Option<Value>>)
    requires Defined(stores, names)
    ensures forall k :: k in Record(stores, names, id, acc) <==> k in acc || k in names
    ensures forall k :: k in names ==> Record(stores, names, id, acc)[k] == stores[k].Get(id)
    ensures forall k :: k in acc && k !in names ==> Record(stores, names, id, acc)[k] == acc[k]
  {
    if |names| > 0 {
      var init := names[..|names| - 1];
      RecordContents(stores, init, id, acc);
      assert names == init + [names[|names| - 1]];
    }
  }

  /** Once a name is missing, the optional scan reports it. */
  lemma {:induction false} FirstUndefinedSpec(stores: map<string, OrderedMap<nat, Value>>, names: seq<string>, j: nat)
    requires j <= |names|
    ensures FirstUndefined(stores, names, j).None? <==> Defined(stores, names[j..])
    ensures FirstUndefined(stores, names, j).Some? ==>
      FirstUndefined(stores, names, j).value in names[j..] && FirstUndefined(stores, names, j).value !in stores
    decreases |names| - j
  {
    if j < |names| {
      FirstUndefinedSpec(stores, names, j + 1);
      assert names[j..] == [names[j]] + names[j + 1..];
    }
  }

  /** With every name defined, the candidate checks agree with the reference
      filter, and a selected candidate gets its view. */
  lemma CandidateDefined(stores: map<string, OrderedMap<nat, Value>>, q: SQuery, id: nat)
    requires WellFormed(stores, q) && id in stores[PivotName(q)].entries
    ensures Candidate(stores, q, id)
      == Ok(if Selected(stores, q.includes, q.excludes, id) then Some(ViewOf(stores, q, id)) else None)
  {
    if |q.includes| > 0 {
      IncludesFromDefined(stores, q.includes, id, 1);
      assert q.includes == [q.includes[0]] + q.includes[1..];
    }
    ExcludesFromDefined(stores, q.excludes, id, 0);
    assert q.excludes[0..] == q.excludes;
    FirstUndefinedSpec(stores, q.optionals, 0);
    assert q.optionals[0..] == q.optionals;
  }

  lemma {:induction false} ScanDefined(stores: map<string, OrderedMap<nat, Value>>, q: SQuery, n: nat)
    requires WellFormed(stores, q)
    requires n <= |stores[PivotName(q)].keys|
    ensures var order := stores[PivotName(q)].keys;
      Scan(stores, q, order, n) == Ok(ViewsOf(stores, q, Filtered(stores, q.includes, q.excludes, order[..n])))
  {
    var order := stores[PivotName(q)].keys;
    if n > 0 {
      ScanDefined(stores, q, n - 1);
      var last := order[n - 1];
      assert last in order;
      CandidateDefined(stores, q, last);
      FilteredPrefix(stores, q.includes, q.excludes, order, n);
      var acc := Filtered(stores, q.includes, q.excludes, order[..n - 1]);
      assert Scan(stores, q, order, n - 1) == Ok(ViewsOf(stores, q, acc));
      if Selected(stores, q.includes, q.excludes, last) {
        assert Scan(stores, q, order, n) == Ok(ViewsOf(stores, q, acc) + [ViewOf(stores, q, last)]);
        assert ViewsOf(stores, q, acc + [last]) == ViewsOf(stores, q, acc) + [ViewOf(stores, q, last)];
      } else {
        assert Scan(stores, q, order, n) == Ok(ViewsOf(stores, q, acc));
        assert acc + [] == acc;
      }
    } else {
      assert order[..n] == [];
    }
  }

  /** A well-formed query never throws and returns the views of exactly the
      filtered pivot order. */
  lemma QueryIsFilter(stores: map<string, OrderedMap<nat, Value>>, q: SQuery)
    requires WellFormed(stores, q)
    ensures var order := stores[PivotName(q)].keys;
      Evaluate(stores, q) == Ok(ViewsOf(stores, q, Filtered(stores, q.includes, q.excludes, order)))
  {
    var order := stores[PivotName(q)].keys;
    ScanDefined(stores, q, |order|);
    assert order[..|order|] == order;
  }

  /** Query membership, for a well-formed query (every listed name has an
      attribute): a view for `id` is returned iff `id` has a pivot value,
      every included attribute has a value for it and no excluded one has;
      no id is returned twice. */
  lemma QueryMembership(stores: map<string, OrderedMap<nat, Value>>, q: SQuery, id: nat)
    requires WellFormed(stores, q)
    ensures Evaluate(stores, q).Ok?
    ensures Distinct(Ids(Evaluate(stores, q).value))
    ensures id in Ids(Evaluate(stores, q).value)
      <==> id in stores[PivotName(q)].entries && Selected(stores, q.includes, q.excludes, id)
  {
    var order := stores[PivotName(q)].keys;
    var ids := Filtered(stores, q.includes, q.excludes, order);
    QueryIsFilter(stores, q);
    FilteredMembers(stores, q.includes, q.excludes, order, id);
    FilteredDistinct(stores, q.includes, q.excludes, order);
    assert Ids(ViewsOf(stores, q, ids)) == ids;
  }

  /** Each returned view holds the pivot value and every included value under
      its name, every optional name with its value or `undefined`, and no
      other name. */
  lemma QueryViews(stores: map<string, OrderedMap<nat, Value>>, q: SQuery, v: EntityView)
    requires WellFormed(stores, q)
    requires Evaluate(stores, q).Ok? && v in Evaluate(stores, q).value
    ensures v.id in stores[PivotName(q)].entries && Selected(stores, q.includes, q.excludes, v.id)
    ensures forall k :: k in v.attributes <==> k == PivotName(q) || k in q.includes || k in q.optionals
    ensures v.attributes[PivotName(q)] == Some(stores[PivotName(q)].entries[v.id])
    ensures forall k :: k in q.includes ==> v.attributes[k] == Some(stores[k].entries[v.id])
    ensures forall k :: k in q.optionals ==> v.attributes[k] == stores[k].Get(v.id)
  {
    var p := PivotName(q);
    var order := stores[p].keys;
    var ids := Filtered(stores, q.includes, q.excludes, order);
    QueryIsFilter(stores, q);
    var i :| 0 <= i < |ids| && v == ViewOf(stores, q, ids[i]);
    FilteredMembers(stores, q.includes, q.excludes, order, v.id);
    var base := map[p := stores[p].Get(v.id)];
    assert Defined(stores, Rest(q));
    RecordContents(stores, Rest(q), v.id, base);
    var mid := Record(stores, Rest(q), v.id, base);
    RecordContents(stores, q.optionals, v.id, mid);
    assert |q.includes| > 0 ==> q.includes[0] == p;
  }

  /** For a well-formed query (every listed name has an attribute, the
      optional ones included), the optional list never changes which ids
      are returned, or in what order. */
  lemma OptionalsDoNotFilter(stores: map<string, OrderedMap<nat, Value>>, q: SQuery)
    requires WellFormed(stores, q)
    ensures Evaluate(stores, q).Ok? && Evaluate(stores, q.(optionals := [])).Ok?
    ensures Ids(Evaluate(stores, q).value) == Ids(Evaluate(stores, q.(optionals := [])).value)
  {
    var q' := q.(optionals := []);
    var ids := Filtered(stores, q.includes, q.excludes, stores[PivotName(q)].keys);
    QueryIsFilter(stores, q);
    QueryIsFilter(stores, q');
    assert Ids(ViewsOf(stores, q, ids)) == ids;
    assert Ids(ViewsOf(stores, q', ids)) == ids;
  }

  /** A candidate throws only for a listed name that has no attribute. */
  lemma CandidateErr(stores: map<string, OrderedMap<nat, Value>>, q: SQuery, id: nat)
    requires Candidate(stores, q, id).Err?
    ensures Candidate(stores, q, id).error.UndefinedAttribute?
    ensures var n := Candidate(stores, q, id).error.name;
      (n in q.includes || n in q.excludes || n in q.optionals) && n !in stores
  {
    if IncludesFrom(stores, q.includes, id, 1).Err? {
      IncludesFromErr(stores, q.includes, id, 1);
    } else if ExcludesFrom(stores, q.excludes, id, 0).Err? {
      ExcludesFromErr(stores, q.excludes, id, 0);
    } else {
      FirstUndefinedSpec(stores, q.optionals, 0);
      assert q.optionals[0..] == q.optionals;
    }
  }

  /** The scan throws only for a listed name that has no attribute. */
  lemma {:induction false} ScanErr(stores: map<string, OrderedMap<nat, Value>>, q: SQuery, order: seq<nat>, n: nat)
    requires n <= |order| && Scan(stores, q, order, n).Err?
    ensures Scan(stores, q, order, n).error.UndefinedAttribute?
    ensures var k := Scan(stores, q, order, n).error.name;
      (k in q.includes || k in q.excludes || k in q.optionals) && k !in stores
  {
    if Scan(stores, q, order, n - 1).Err? {
      ScanErr(stores, q, order, n - 1);
    } else {
      CandidateErr(stores, q, order[n - 1]);
    }
  }

  /** `query` throws only for a name that really has no store, and names
      it; it is the pivot or one of the listed names. */
  lemma QueryErrorNamesUndefinedAttribute(stores: map<string, OrderedMap<nat, Value>>, q: SQuery)
    requires Evaluate(stores, q).Err?
    ensures Evaluate(stores, q).error.UndefinedAttribute?
    ensures var k := Evaluate(stores, q).error.name;
      k !in stores && (k == PivotName(q) || k in q.includes || k in q.excludes || k in q.optionals)
  {
    var p := PivotName(q);
    if p in stores {
      ScanErr(stores, q, stores[p].keys, |stores[p].keys|);
    }
  }

  /** Once the scan has thrown, scanning further candidates does not change
      the outcome. */
  lemma {:induction false} ScanErrSticks(stores: map<string, OrderedMap<nat, Value>>, q: SQuery, order: seq<nat>, i: nat, n: nat)
    requires i <= n <= |order| && Scan(stores, q, order, i).Err?
    ensures Scan(stores, q, order, n) == Scan(stores, q, order, i)
    decreases n - i
  {
    if i < n {
      ScanErrSticks(stores, q, order, i, n - 1);
    }
  }
}
