/** The object-based runtime of src/state.ts: a `State` table of named
    `Database`s, each with a dense entity array (the id is the index, a
    deleted slot holds `undefined`) and string-named attributes, each holding
    an insertion-ordered instance map and a keyed table of change effects.
    Effects are opaque: every run is recorded in the attribute's ghost
    `effectRuns`. */
module StateRuntime {
  import opened Wrappers
  import opened JsMap
  import opened QueryCore
  import opened StateQuery

  /** An effect, or the object it is registered under; both are opaque. */
  type Callback = nat
  type EffectKey = nat

  /** Slot `id` of the entity array is taken. */
  predicate Live(entities: seq<Option<nat>>, id: nat) {
    id < |entities| && entities[id].Some?
  }

  /** Each taken slot holds its own index. */
  ghost predicate SlotsHoldIndex(entities: seq<Option<nat>>) {
    forall i :: 0 <= i < |entities| && entities[i].Some? ==> entities[i].value == i
  }

  /** `entities[id] = undefined`. Past the end, the assignment grows the
      array to `id + 1`; the new slots, holes included, read `undefined`. */
  function Cleared(entities: seq<Option<nat>>, id: nat): (r: seq<Option<nat>>)
    ensures |r| == if id < |entities| then |entities| else id + 1
  {
    if id < |entities| then entities[id := None]
    else entities + seq(id + 1 - |entities|, _ => None)
  }

  /** Clearing a slot frees exactly that slot, keeps every other slot, and
      keeps each taken slot holding its own index. */
  lemma ClearedFreesOnlyId(entities: seq<Option<nat>>, id: nat)
    ensures !Live(Cleared(entities, id), id)
    ensures forall i :: i != id ==> Live(Cleared(entities, id), i) == Live(entities, i)
    ensures SlotsHoldIndex(entities) ==> SlotsHoldIndex(Cleared(entities, id))
  {
  }

  /** Deleting past the end makes the next `addEntity` skip ahead: it will
      hand out `id + 1`, and the ids from the old length up to `id` are never
      handed out. */
  lemma DeletePastEndSkipsIds(entities: seq<Option<nat>>, id: nat)
    requires id >= |entities|
    ensures |Cleared(entities, id)| == id + 1 > |entities|
    ensures forall j :: |entities| <= j <= id ==> !Live(Cleared(entities, id), j)
  {
  }

  class Attribute {
    const name: string
    var instances: OrderedMap<nat, Value>
    var changeEffects: OrderedMap<EffectKey, Callback>
    /** The effects run on this attribute, oldest first. */
    ghost var effectRuns: seq<Callback>

    constructor(name: string)
      ensures this.name == name
      ensures instances == Empty() && changeEffects == Empty() && effectRuns == []
    {
      this.name := name;
      instances := Empty();
      changeEffects := Empty();
      effectRuns := [];
    }

    /** `onChange(key, effect)`: registers `effect` under `key`; a key that
        is already registered keeps its place and gets the new effect. */
    method OnChange(key: EffectKey, effect: Callback)
      requires changeEffects.Valid()
      modifies this`changeEffects
      ensures changeEffects == old(changeEffects).Set(key, effect)
      ensures key !in old(changeEffects.entries) ==> changeEffects.Values() == old(changeEffects.Values()) + [effect]
      ensures key in old(changeEffects.entries) ==>
        && |changeEffects.Values()| == |old(changeEffects.Values())|
        && forall i :: 0 <= i < |changeEffects.keys| ==>
             changeEffects.Values()[i] == if changeEffects.keys[i] == key then effect else old(changeEffects.Values())[i]
    {
      SetValues(changeEffects, key, effect);
      changeEffects := changeEffects.Set(key, effect);
    }

    /** `change()`: runs every registered effect once, in registration
        order. */
    method Change()
      requires changeEffects.Valid()
      modifies this`effectRuns
      ensures effectRuns == old(effectRuns) + changeEffects.Values()
    {
      var effects := changeEffects.Values();
      for i := 0 to |effects|
        invariant effectRuns == old(effectRuns) + effects[..i]
      {
        effectRuns := effectRuns + [effects[i]];
        assert effects[..i + 1] == effects[..i] + [effects[i]];
      }
      assert effects[..|effects|] == effects;
    }
  }

  class Database {
    const name: string
    var entities: seq<Option<nat>>
    var attributes: map<string, Attribute>

    ghost predicate Valid()
      reads this`entities, this`attributes, attributes.Values
    {
      && (forall n :: n in attributes ==>
            && attributes[n].name == n
            && attributes[n].instances.Valid()
            && attributes[n].changeEffects.Valid())
      && SlotsHoldIndex(entities)
    }

    /** The contents of every attribute store, by name. */
    ghost function Stores(): map<string, OrderedMap<nat, Value>>
      reads this`attributes, attributes.Values
    {
      map n | n in attributes :: attributes[n].instances
    }

    constructor(name: string)
      ensures this.name == name && entities == [] && attributes == map[]
      ensures Valid()
    {
      this.name := name;
      entities := [];
      attributes := map[];
    }

    /** `addEntity()`: the id is the array length, and the array grows by
        that id. */
    method AddEntity() returns (ent: Entity)
      requires Valid()
      modifies this`entities
      ensures Valid()
      ensures fresh(ent) && ent.world == this
      ensures ent.id == |old(entities)| && entities == old(entities) + [Some(ent.id)]
      ensures Live(entities, ent.id)
      ensures forall i :: i != ent.id ==> Live(entities, i) == Live(old(entities), i)
    {
      ent := new Entity(|entities|, this);
      entities := entities + [Some(ent.id)];
    }

    /** `deleteEntity(id)`: frees the slot (growing the array when `id` is
        past its end) and removes `id` from every attribute's instances. No
        change effect runs. */
    method DeleteEntity(id: nat)
      requires Valid()
      modifies this`entities, attributes.Values`instances
      ensures Valid()
      ensures entities == Cleared(old(entities), id)
      ensures forall n :: n in attributes ==> attributes[n].instances == old(attributes[n].instances).Delete(id)
      ensures forall n :: n in attributes ==> attributes[n].effectRuns == old(attributes[n].effectRuns)
    {
      ClearedFreesOnlyId(entities, id);
      entities := Cleared(entities, id);
      var todo := attributes.Keys;
      while todo != {}
        invariant todo <= attributes.Keys
        invariant entities == Cleared(old(entities), id)
        invariant forall n :: n in attributes ==>
          attributes[n].instances == if n in todo then old(attributes[n].instances) else old(attributes[n].instances).Delete(id)
        decreases todo
      {
        var n :| n in todo;
        var attr := attributes[n];
        attr.instances := attr.instances.Delete(id);
        todo := todo - {n};
      }
    }

    /** `addAttribute(name)`: a fresh, empty attribute, replacing any
        attribute of that name. */
    method AddAttribute(name: string) returns (attr: Attribute)
      requires Valid()
      modifies this`attributes
      ensures Valid()
      ensures fresh(attr) && attributes == old(attributes)[name := attr]
      ensures attr.name == name && attr.changeEffects == Empty() && attr.effectRuns == []
      ensures Stores() == old(Stores())[name := Empty()]
    {
      attr := new Attribute(name);
      attributes := attributes[name := attr];
    }

    /** `getEntity(id)`: an entity for a taken slot, `undefined` otherwise. */
    method GetEntity(id: nat) returns (r: Option<Entity>)
      ensures r.Some? <==> Live(entities, id)
      ensures r.Some? ==> fresh(r.value) && r.value.id == id && r.value.world == this
    {
      if id < |entities| && entities[id].Some? {
        var ent := new Entity(id, this);
        r := Some(ent);
      } else {
        r := None;
      }
    }

    /** `getAttribute(name)`: the attribute, or an error for an unknown
        name. */
    method GetAttribute(name: string) returns (r: Result<Attribute, StateError>)
      ensures name in attributes ==> r == Ok(attributes[name])
      ensures name !in attributes ==> r == Err(UndefinedAttribute(name))
    {
      if name in attributes {
        r := Ok(attributes[name]);
      } else {
        r := Err(UndefinedAttribute(name));
      }
    }

    /** The first loop of `query` for one candidate: the includes after the
        pivot, each written into `attrs` until one has no value for `entId`. */
    method CheckIncludes(q: SQuery, entId: nat, ghost stores: map<string, OrderedMap<nat, Value>>,
                         acc: map<string, Option<Value>>)
      returns (r: Result<bool, StateError>, attrs: map<string, Option<Value>>)
      requires Valid() && stores == Stores()
      ensures IncludesFrom(stores, q.includes, entId, 1).Err? ==>
        r == Err(UndefinedAttribute(IncludesFrom(stores, q.includes, entId, 1).error))
      ensures IncludesFrom(stores, q.includes, entId, 1).Ok? ==> r == Ok(IncludesFrom(stores, q.includes, entId, 1).value)
      ensures r == Ok(true) ==> attrs == Record(stores, Rest(q), entId, acc)
    {
      attrs := acc;
      var j := 1;
      while j < |q.includes|
        invariant 1 <= j <= |Rest(q)| + 1
        invariant IncludesFrom(stores, q.includes, entId, 1) == IncludesFrom(stores, q.includes, entId, j)
        invariant attrs == Record(stores, Rest(q)[..j - 1], entId, acc)
      {
        var a := GetAttribute(q.includes[j]);
        if a.Err? {
          return Err(a.error), attrs;
        }
        var attr := a.value;
        var val := attr.instances.Get(entId);
        if val.None? {
          return Ok(false), attrs;
        }
        assert Rest(q)[..j] == Rest(q)[..j - 1] + [q.includes[j]];
        attrs := attrs[attr.name := val];
        j := j + 1;
      }
      assert Rest(q)[..j - 1] == Rest(q);
      r := Ok(true);
    }

    /** The second loop of `query` for one candidate: the excludes, until
        one has a value for `entId`. */
    method CheckExcludes(q: SQuery, entId: nat, ghost stores: map<string, OrderedMap<nat, Value>>)
      returns (r: Result<bool, StateError>)
      requires stores == Stores()
      ensures ExcludesFrom(stores, q.excludes, entId, 0).Err? ==>
        r == Err(UndefinedAttribute(ExcludesFrom(stores, q.excludes, entId, 0).error))
      ensures ExcludesFrom(stores, q.excludes, entId, 0).Ok? ==> r == Ok(ExcludesFrom(stores, q.excludes, entId, 0).value)
    {
      var j := 0;
      while j < |q.excludes|
        invariant 0 <= j
        invariant ExcludesFrom(stores, q.excludes, entId, 0) == ExcludesFrom(stores, q.excludes, entId, j)
      {
        var a := GetAttribute(q.excludes[j]);
        if a.Err? {
          return Err(a.error);
        }
        if a.value.instances.Get(entId).Some? {
          return Ok(false);
        }
        j := j + 1;
      }
      r := Ok(true);
    }

    /** The third loop of `query` for one candidate: every optional name is
        written into `attrs`, with `undefined` when it has no value. */
    method AddOptionals(q: SQuery, entId: nat, ghost stores: map<string, OrderedMap<nat, Value>>,
                        acc: map<string, Option<Value>>)
      returns (r: Result<map<string, Option<Value>>, StateError>)
      requires Valid() && stores == Stores()
      ensures FirstUndefined(stores, q.optionals, 0).Some? ==>
        r == Err(UndefinedAttribute(FirstUndefined(stores, q.optionals, 0).value))
      ensures FirstUndefined(stores, q.optionals, 0).None? ==> r == Ok(Record(stores, q.optionals, entId, acc))
    {
      var attrs := acc;
      var j := 0;
      while j < |q.optionals|
        invariant 0 <= j <= |q.optionals|
        invariant FirstUndefined(stores, q.optionals, 0) == FirstUndefined(stores, q.optionals, j)
        invariant attrs == Record(stores, q.optionals[..j], entId, acc)
      {
        var a := GetAttribute(q.optionals[j]);
        if a.Err? {
          return Err(a.error);
        }
        var attr := a.value;
        assert q.optionals[..j + 1] == q.optionals[..j] + [q.optionals[j]];
        attrs := attrs[attr.name := attr.instances.Get(entId)];
        j := j + 1;
      }
      assert q.optionals[..j] == q.optionals;
      r := Ok(attrs);
    }

    /** The body of the loop in `query` for one pivot entry `entId`:
        includes after the pivot, excludes, then optionals; a failed check
        drops the candidate and an unknown name throws. */
    method Inspect(q: SQuery, base: Attribute, entId: nat, ghost stores: map<string, OrderedMap<nat, Value>>)
      returns (r: Result<Option<EntityView>, StateError>)
      requires Valid() && stores == Stores()
      requires base.name == PivotName(q) && PivotName(q) in stores && base.instances == stores[PivotName(q)]
      requires entId in base.instances.entries
      ensures r == Candidate(stores, q, entId)
    {
      var attrs := map[base.name := Some(base.instances.entries[entId])];
      assert attrs == map[PivotName(q) := stores[PivotName(q)].Get(entId)];
      var inc;
      inc, attrs := CheckIncludes(q, entId, stores, attrs);
      if inc.Err? {
        return Err(inc.error);
      } else if !inc.value {
        return Ok(None);
      }
      var exc := CheckExcludes(q, entId, stores);
      if exc.Err? {
        return Err(exc.error);
      } else if !exc.value {
        return Ok(None);
      }
      var opt := AddOptionals(q, entId, stores, attrs);
      if opt.Err? {
        return Err(opt.error);
      }
      r := Ok(Some(EntityView(entId, opt.value)));
    }

    /** The loop of `query`: every entry of the pivot attribute `base`, in
        its order, inspected in turn; the first error stops the scan. */
    method ScanPivot(q: SQuery, base: Attribute, ghost stores: map<string, OrderedMap<nat, Value>>)
      returns (r: Result<seq<EntityView>, StateError>)
      requires Valid() && stores == Stores()
      requires base.name == PivotName(q) && PivotName(q) in stores && base.instances == stores[PivotName(q)]
      ensures r == Scan(stores, q, base.instances.keys, |base.instances.keys|)
    {
      var order := base.instances.keys;
      var views: seq<EntityView> := [];
      var i := 0;
      while i < |order|
        invariant 0 <= i <= |order|
        invariant Scan(stores, q, order, i) == Ok(views)
      {
        var entId := order[i];
        assert entId in order;
        var c := Inspect(q, base, entId, stores);
        if c.Err? {
          ScanErrSticks(stores, q, order, i + 1, |order|);
          return Err(c.error);
        }
        if c.value.Some? {
          views := views + [c.value.value];
        }
        i := i + 1;
      }
      r := Ok(views);
    }

    /** `query(q)`: one view per matching entry of the pivot attribute, in
        its order. */
    method Query(q: SQuery) returns (r: Result<seq<EntityView>, StateError>)
      requires Valid()
      ensures r == Evaluate(Stores(), q)
    {
      // `include[0]` of an empty list is `undefined`, i.e. the key "undefined"
      var pivot := if |q.includes| == 0 then "undefined" else q.includes[0];
      var b := GetAttribute(pivot);
      if b.Err? {
        return Err(b.error);
      }
      var base := b.value;
      ghost var stores := Stores();
      assert base.name == PivotName(q) && base.instances == stores[PivotName(q)];
      r := ScanPivot(q, base, stores);
    }
  }

  /** A handle on one entity of one database. */
  class Entity {
    const id: nat
    const world: Database

    constructor(id: nat, world: Database)
      ensures this.id == id && this.world == world
    {
      this.id := id;
      this.world := world;
    }

    /** `get(name)`: the value, `undefined` when absent, or an error for an
        unknown name. */
    method Get(name: string) returns (r: Result<Option<Value>, StateError>)
      ensures name in world.Stores() ==> r == Ok(world.Stores()[name].Get(id))
      ensures name !in world.Stores() ==> r == Err(UndefinedAttribute(name))
    {
      var a := world.GetAttribute(name);
      if a.Err? {
        return Err(a.error);
      }
      r := Ok(a.value.instances.Get(id));
    }

    /** `set(name, value)`: stores the value, then runs the attribute's
        change effects. */
    method Set(name: string, v: Value) returns (r: Outcome<StateError>)
      requires world.Valid()
      modifies if name in world.attributes then {world.attributes[name]} else {}
      ensures world.Valid()
      ensures name !in world.attributes ==> r == Fail(UndefinedAttribute(name))
      ensures name in world.attributes ==>
        var attr := world.attributes[name];
        && r == Pass
        && attr.instances == old(attr.instances).Set(id, v)
        && (forall n :: n in world.attributes && n != name ==>
              world.attributes[n].instances == old(world.attributes[n].instances))
        && attr.changeEffects == old(attr.changeEffects)
        && attr.effectRuns == old(attr.effectRuns) + attr.changeEffects.Values()
    {
      var a := world.GetAttribute(name);
      if a.Err? {
        return Fail(a.error);
      }
      var attr := a.value;
      attr.instances := attr.instances.Set(id, v);
      attr.Change();
      forall n | n in world.attributes && n != name
        ensures world.attributes[n].instances == old(world.attributes[n].instances)
      {
        assert world.attributes[n].name != attr.name;
      }
      r := Pass;
    }

    /** `delete(name)`: removes the value, then runs the attribute's change
        effects, whether or not a value was stored. */
    method Delete(name: string) returns (r: Outcome<StateError>)
      requires world.Valid()
      modifies if name in world.attributes then {world.attributes[name]} else {}
      ensures world.Valid()
      ensures name !in world.attributes ==> r == Fail(UndefinedAttribute(name))
      ensures name in world.attributes ==>
        var attr := world.attributes[name];
        && r == Pass
        && attr.instances == old(attr.instances).Delete(id)
        && (forall n :: n in world.attributes && n != name ==>
              world.attributes[n].instances == old(world.attributes[n].instances))
        && attr.changeEffects == old(attr.changeEffects)
        && attr.effectRuns == old(attr.effectRuns) + attr.changeEffects.Values()
    {
      var a := world.GetAttribute(name);
      if a.Err? {
        return Fail(a.error);
      }
      var attr := a.value;
      attr.instances := attr.instances.Delete(id);
      attr.Change();
      forall n | n in world.attributes && n != name
        ensures world.attributes[n].instances == old(world.attributes[n].instances)
      {
        assert world.attributes[n].name != attr.name;
      }
      r := Pass;
    }
  }

  /** The table of databases by name. */
  class State {
    var dbs: map<string, Database>

    ghost predicate Valid()
      reads this`dbs
    {
      forall n :: n in dbs ==> dbs[n].name == n
    }

    constructor()
      ensures dbs == map[] && Valid()
    {
      dbs := map[];
    }

    /** `addDatabase(db)`: registers `db` under its name, replacing any
        database of that name, and returns this same state. */
    method AddDatabase(db: Database) returns (s: State)
      requires Valid()
      modifies this`dbs
      ensures Valid()
      ensures dbs == old(dbs)[db.name := db] && s == this
    {
      dbs := dbs[db.name := db];
      s := this;
    }

    /** `getDatabase(name)`: the database, or an error for an unknown
        name. */
    method GetDatabase(name: string) returns (r: Result<Database, StateError>)
      ensures name in dbs ==> r == Ok(dbs[name])
      ensures name !in dbs ==> r == Err(UndefinedWorld(name))
    {
      if name in dbs {
        r := Ok(dbs[name]);
      } else {
        r := Err(UndefinedWorld(name));
      }
    }
  }
}
