/** The module-level runtime of src/zen.ts. The module's globals (the live-id
    set, the name table, the attribute registry and the id counter) are the
    fields of one `World`; `Entity`, which only wraps an id, is the id itself,
    and its methods are `World` methods that take it. Hooks and system
    callbacks are opaque: each invocation is recorded in a ghost log. */
module Zen {
  import opened Wrappers
  import opened JsMap
  import opened ZenQuery
  import opened ZenThrottle
  import opened QueryCore

  /** An opaque callback: an `onAdd`/`onRemove` hook or a system's `fn`. */
  type Callback = nat

  /** An attribute value. The runtime looks inside none of them, except that
      it calls `update` on the values of the System store. */
  datatype Value = Data(token: nat) | SystemRef(sys: System)

  /** One invocation of a hook, with the value it was passed. */
  datatype HookCall = HookCall(hook: Callback, value: Value)

  datatype Event =
    | NameWarning(name: string)        // the console warning when a name is re-bound
    | FnCall(sys: System, entity: nat) // `sys.fn` invoked on an entity by `execute`

  /** `fn` applied to each id, in order. */
  function Calls(s: System, ids: seq<nat>): (es: seq<Event>)
    ensures |es| == |ids|
    ensures forall i :: 0 <= i < |ids| ==> es[i] == FnCall(s, ids[i])
  {
    seq(|ids|, i requires 0 <= i < |ids| => FnCall(s, ids[i]))
  }

  /** `if (name)`: only a non-empty name is bound. */
  predicate Named(name: Option<string>) {
    name.Some? && name.value != ""
  }

  /** The store of one attribute key: its instances and its hooks. */
  class Attribute {
    const onAdd: Option<Callback>
    const onRemove: Option<Callback>
    var instances: OrderedMap<nat, Value>
    /** Every invocation of this attribute's hooks, oldest first. */
    ghost var hookCalls: seq<HookCall>

    constructor(onAdd: Option<Callback>, onRemove: Option<Callback>)
      ensures this.onAdd == onAdd && this.onRemove == onRemove
      ensures instances == Empty() && hookCalls == []
    {
      this.onAdd := onAdd;
      this.onRemove := onRemove;
      instances := Empty();
      hookCalls := [];
    }

    /** `removeInstance`: when `entId` has a value, `onRemove` (if any) is
        called once with it and the value is then deleted; otherwise nothing
        happens. */
    method RemoveInstance(entId: nat)
      requires instances.Valid()
      modifies this
      ensures instances.Valid()
      ensures entId !in old(instances.entries) ==>
        instances == old(instances) && hookCalls == old(hookCalls)
      ensures instances == old(instances).Delete(entId)
      ensures hookCalls == old(hookCalls)
        + (if entId in old(instances.entries) && onRemove.Some?
           then [HookCall(onRemove.value, old(instances.entries[entId]))] else [])
    {
      if entId !in instances.entries {
        return;
      }
      if onRemove.Some? {
        hookCalls := hookCalls + [HookCall(onRemove.value, instances.entries[entId])];
      }
      instances := instances.Delete(entId);
    }
  }

  /** What one `System.update(dt)` does, given the stores it queries. */
  datatype Step = Step(elapsed: real, calls: seq<Event>, failure: Option<ZenError>)

  ghost function SystemStep(stores: map<AttrKey, OrderedMap<nat, Value>>, s: System, elapsed: real, dt: real): Step {
    if !Due(elapsed, s.interval, dt) then Step(elapsed + dt, [], None)
    else
      match Evaluate(stores, s.query)
      case Err(e) => Step(elapsed + dt, [], Some(e))
      case Ok(ids) => Step(0.0, Calls(s, ids), None)
  }

  /** A system that ran without throwing follows the throttle arithmetic,
      and calls `fn` exactly when it was due. */
  lemma SystemStepThrottles(stores: map<AttrKey, OrderedMap<nat, Value>>, s: System, elapsed: real, dt: real)
    requires Evaluate(stores, s.query).Ok?
    ensures SystemStep(stores, s, elapsed, dt).failure.None?
    ensures SystemStep(stores, s, elapsed, dt).elapsed == Advance(elapsed, s.interval, dt)
    ensures SystemStep(stores, s, elapsed, dt).calls
            == if Due(elapsed, s.interval, dt) then Calls(s, Evaluate(stores, s.query).value) else []
  {
  }

  function SystemsIn(vals: seq<Value>): set<System> {
    set v | v in vals && v.SystemRef? :: v.sys
  }

  /** What `update(dt)` has done after visiting the first `n` values of the
      System store: every accumulator, the callbacks made, and the error that
      stopped it, if any. */
  datatype Tick = Tick(elapsed: map<System, real>, calls: seq<Event>, failure: Option<ZenError>)

  /** Visiting one value of the System store: a non-system value throws,
      a system runs its `update(dt)`, and nothing runs after a failure. */
  ghost function Visit(stores: map<AttrKey, OrderedMap<nat, Value>>, t: Tick, v: Value, dt: real): (r: Tick)
    requires v.SystemRef? ==> v.sys in t.elapsed
    ensures r.elapsed.Keys == t.elapsed.Keys
    ensures t.failure.Some? ==> r == t
  {
    if t.failure.Some? then t
    else
      match v
      case Data(_) => Tick(t.elapsed, t.calls, Some(NotASystem))
      case SystemRef(s) =>
        var st := SystemStep(stores, s, t.elapsed[s], dt);
        Tick(t.elapsed[s := st.elapsed], t.calls + st.calls, st.failure)
  }

  ghost function UpdatePrefix(stores: map<AttrKey, OrderedMap<nat, Value>>, vals: seq<Value>,
                              el0: map<System, real>, dt: real, n: nat): (t: Tick)
    requires n <= |vals| && SystemsIn(vals) <= el0.Keys
    ensures t.elapsed.Keys == el0.Keys
  {
    if n == 0 then Tick(el0, [], None)
    else
      var t := UpdatePrefix(stores, vals, el0, dt, n - 1);
      assert vals[n - 1].SystemRef? ==> vals[n - 1].sys in SystemsIn(vals);
      Visit(stores, t, vals[n - 1], dt)
  }

  lemma UpdatePrefixNext(stores: map<AttrKey, OrderedMap<nat, Value>>, vals: seq<Value>,
                         el0: map<System, real>, dt: real, i: nat)
    requires i < |vals| && SystemsIn(vals) <= el0.Keys
    ensures vals[i].SystemRef? ==> vals[i].sys in UpdatePrefix(stores, vals, el0, dt, i).elapsed
    ensures UpdatePrefix(stores, vals, el0, dt, i + 1) == Visit(stores, UpdatePrefix(stores, vals, el0, dt, i), vals[i], dt)
  {
  }

  /** Once a system has thrown, the systems after it are not visited. */
  lemma {:induction false} UpdateFailureSticks(stores: map<AttrKey, OrderedMap<nat, Value>>, vals: seq<Value>,
                                               el0: map<System, real>, dt: real, i: nat, n: nat)
    requires i <= n <= |vals| && SystemsIn(vals) <= el0.Keys
    requires UpdatePrefix(stores, vals, el0, dt, i).failure.Some?
    ensures UpdatePrefix(stores, vals, el0, dt, n) == UpdatePrefix(stores, vals, el0, dt, i)
    decreases n - i
  {
    if i < n {
      UpdateFailureSticks(stores, vals, el0, dt, i, n - 1);
    }
  }

  /** A registered behaviour: a query, a callback and a throttle. */
  class System {
    const query: Query
    const fn: Callback
    const interval: real
    var elapsedInterval: real

    constructor(q: Query, fn: Callback, frequency: Option<real>)
      ensures query == q && this.fn == fn
      ensures interval == IntervalOf(frequency) && elapsedInterval == 0.0
    {
      query := q;
      this.fn := fn;
      interval := IntervalOf(frequency);
      elapsedInterval := 0.0;
    }

    /** `update(dt)`: advance the accumulator, and execute when it strictly
        exceeds the interval. */
    method Update(w: World, dt: real) returns (r: Outcome<ZenError>)
      modifies this, w`trace
      ensures var st := SystemStep(w.Stores(), this, old(elapsedInterval), dt);
        && elapsedInterval == st.elapsed
        && w.trace == old(w.trace) + st.calls
        && r == (if st.failure.Some? then Fail(st.failure.value) else Pass)
    {
      elapsedInterval := elapsedInterval + dt;
      if elapsedInterval > interval {
        r := Execute(w);
      } else {
        r := Pass;
      }
    }

    /** `execute()`: call `fn` once per query result, in order, then reset
        the accumulator to 0. A query that throws leaves the accumulator
        alone. */
    method Execute(w: World) returns (r: Outcome<ZenError>)
      modifies this, w`trace
      ensures Evaluate(w.Stores(), query).Err? ==>
        && r == Fail(Evaluate(w.Stores(), query).error)
        && elapsedInterval == old(elapsedInterval) && w.trace == old(w.trace)
      ensures Evaluate(w.Stores(), query).Ok? ==>
        && r == Pass && elapsedInterval == 0.0
        && w.trace == old(w.trace) + Calls(this, Evaluate(w.Stores(), query).value)
    {
      var res := w.Query(query);
      if res.Err? {
        return Fail(res.error);
      }
      var q := res.value;
      var len := |q|;
      for i := 0 to len
        invariant w.trace == old(w.trace) + Calls(this, q[..i])
      {
        w.trace := w.trace + [FnCall(this, q[i])];
        assert Calls(this, q[..i + 1]) == Calls(this, q[..i]) + [FnCall(this, q[i])];
      }
      assert q[..len] == q;
      elapsedInterval := 0.0;
      r := Pass;
    }
  }

  /** The runtime's global state. */
  class World {
    var live: set<nat>
    var names: map<string, nat>
    var attributes: map<AttrKey, Attribute>
    var nextId: nat
    /** Name warnings and system callbacks, oldest first. */
    ghost var trace: seq<Event>

    ghost predicate Valid()
      reads this`live, this`names, this`attributes, this`nextId, attributes.Values
    {
      && SystemKey in attributes
      && (forall k :: k in attributes ==> attributes[k].instances.Valid())
      && (forall k, k' :: k in attributes && k' in attributes && k != k' ==> attributes[k] != attributes[k'])
      && (forall id :: id in live ==> id < nextId)
      && (forall n :: n in names ==> names[n] < nextId)
    }

    /** The contents of every attribute store, by key. */
    ghost function Stores(): map<AttrKey, OrderedMap<nat, Value>>
      reads this`attributes, attributes.Values
    {
      map k | k in attributes :: attributes[k].instances
    }

    ghost function SystemValues(): seq<Value>
      reads this`live, this`names, this`attributes, this`nextId, attributes.Values
      requires Valid()
    {
      attributes[SystemKey].instances.Values()
    }

    ghost function Systems(): set<System>
      reads this`live, this`names, this`attributes, this`nextId, attributes.Values
      requires Valid()
    {
      SystemsIn(SystemValues())
    }

    ghost function Elapsed(): map<System, real>
      reads this`live, this`names, this`attributes, this`nextId, attributes.Values, Systems()
      requires Valid()
    {
      map s | s in Systems() :: s.elapsedInterval
    }

    /** Loading the module: no entities, and the System attribute defined
        (the `defineAttribute(System)` at the end of the file). */
    constructor()
      ensures Valid()
      ensures live == {} && names == map[] && nextId == 0 && trace == []
      ensures Stores() == map[SystemKey := Empty()]
      ensures fresh(attributes[SystemKey]) && attributes[SystemKey].hookCalls == []
      ensures attributes[SystemKey].onAdd == None && attributes[SystemKey].onRemove == None
    {
      live := {};
      names := map[];
      nextId := 0;
      trace := [];
      var systems := new Attribute(None, None);
      attributes := map[SystemKey := systems];
    }

    /** `defineAttribute(key, callbacks)`: a fresh, empty store with these
        hooks; an existing store under `key` is replaced. */
    method DefineAttribute(key: AttrKey, onAdd: Option<Callback>, onRemove: Option<Callback>)
      requires Valid()
      modifies this`attributes
      ensures Valid()
      ensures key in attributes && fresh(attributes[key])
      ensures attributes[key].onAdd == onAdd && attributes[key].onRemove == onRemove
      ensures attributes[key].instances == Empty() && attributes[key].hookCalls == []
      ensures attributes.Keys == old(attributes).Keys + {key}
      ensures forall k :: k in old(attributes) && k != key ==> attributes[k] == old(attributes[k])
    {
      var attr := new Attribute(onAdd, onRemove);
      attributes := attributes[key := attr];
    }

    /** `createEntity(name)`: the next id, never live before; a non-empty
        name is bound to it, with a warning when it was already bound. */
    method CreateEntity(name: Option<string>) returns (id: nat)
      requires Valid()
      modifies this`live, this`names, this`nextId, this`trace
      ensures Valid()
      ensures id == old(nextId) && nextId == old(nextId) + 1
      ensures id !in old(live) && live == old(live) + {id}
      ensures Named(name) ==> names == old(names)[name.value := id]
      ensures !Named(name) ==> names == old(names)
      ensures trace == old(trace) + (if Named(name) && name.value in old(names) then [NameWarning(name.value)] else [])
    {
      id := nextId;
      nextId := nextId + 1;
      live := live + {id};
      if name.Some? && name.value != "" {
        if name.value in names {
          trace := trace + [NameWarning(name.value)];
        }
        names := names[name.value := id];
      }
    }

    /** `deleteEntity(id)`: only the live set changes. The cascade loop
        iterates `Object.values` of a `Map`, which has no own enumerable
        properties, so it never runs: no instance is removed and no
        `onRemove` fires. */
    method DeleteEntity(id: nat)
      requires Valid()
      modifies this`live
      ensures Valid()
      ensures live == old(live) - {id}
      ensures Stores() == old(Stores())
      ensures forall k :: k in attributes ==> attributes[k].hookCalls == old(attributes[k].hookCalls)
    {
      live := live - {id};
    }

    /** `getEntity(name)`: the entity last bound to `name`, if any. */
    method GetEntity(name: string) returns (r: Option<nat>)
      ensures r.Some? <==> name in names
      ensures r.Some? ==> r.value == names[name]
    {
      if name in names {
        r := Some(names[name]);
      } else {
        r := None;
      }
    }

    /** `getEntityById(id)`: the test `entities.has(id) !== undefined` is
        always true, so every id yields an entity, live or not. */
    method GetEntityById(id: nat) returns (r: Option<nat>)
      ensures r == Some(id)
    {
      // `has` yields a boolean, which is never `undefined`, so the id is
      // returned whether or not it is live.
      r := Some(id);
    }

    /** `getAttribute(key)`: the store, or an error for an unregistered key. */
    method GetAttribute(key: AttrKey) returns (r: Result<Attribute, ZenError>)
      ensures key in attributes ==> r == Ok(attributes[key])
      ensures key !in attributes ==> r == Err(UndefinedAttribute(key))
    {
      if key in attributes {
        r := Ok(attributes[key]);
      } else {
        r := Err(UndefinedAttribute(key));
      }
    }

    /** `Entity.getAttribute(key)`. */
    method GetEntityAttribute(id: nat, key: AttrKey) returns (r: Result<Option<Value>, ZenError>)
      ensures key in Stores() ==> r == Ok(Stores()[key].Get(id))
      ensures key !in Stores() ==> r == Err(UndefinedAttribute(key))
    {
      var a := GetAttribute(key);
      if a.Err? {
        return Err(a.error);
      }
      r := Ok(a.value.instances.Get(id));
    }

    /** `Entity.setAttribute(key, value)`: stores the value and fires no
        hook, not even `onAdd` when the value is new. */
    method SetEntityAttribute(id: nat, key: AttrKey, v: Value) returns (r: Outcome<ZenError>)
      requires Valid()
      modifies if key in attributes then {attributes[key]} else {}
      ensures Valid()
      ensures key !in attributes ==> r == Fail(UndefinedAttribute(key))
      ensures key in attributes ==> r == Pass && attributes[key].instances == old(attributes[key].instances).Set(id, v)
      ensures forall k :: k in attributes && k != key ==> attributes[k].instances == old(attributes[k].instances)
      ensures forall k :: k in attributes ==> attributes[k].hookCalls == old(attributes[k].hookCalls)
    {
      var a := GetAttribute(key);
      if a.Err? {
        return Fail(a.error);
      }
      var attr := a.value;
      attr.instances := attr.instances.Set(id, v);
      forall k | k in attributes && k != key
        ensures attributes[k].instances == old(attributes[k].instances)
      {
        assert attributes[k] != attr;
      }
      r := Pass;
    }

    /** `Entity.removeAttribute(key)`. */
    method RemoveEntityAttribute(id: nat, key: AttrKey) returns (r: Outcome<ZenError>)
      requires Valid()
      modifies if key in attributes then {attributes[key]} else {}
      ensures Valid()
      ensures key !in attributes ==> r == Fail(UndefinedAttribute(key))
      ensures key in attributes ==> r == Pass && attributes[key].instances == old(attributes[key].instances).Delete(id)
      ensures forall k :: k in attributes && k != key ==> attributes[k].instances == old(attributes[k].instances)
      ensures key in attributes ==>
        attributes[key].hookCalls == old(attributes[key].hookCalls)
          + (if id in old(attributes[key].instances.entries) && attributes[key].onRemove.Some?
             then [HookCall(attributes[key].onRemove.value, old(attributes[key].instances.entries[id]))] else [])
      ensures forall k :: k in attributes && k != key ==> attributes[k].hookCalls == old(attributes[k].hookCalls)
    {
      var a := GetAttribute(key);
      if a.Err? {
        return Fail(a.error);
      }
      var attr := a.value;
      attr.RemoveInstance(id);
      forall k | k in attributes && k != key
        ensures attributes[k].instances == old(attributes[k].instances)
      {
        assert attributes[k] != attr;
      }
      r := Pass;
    }

    /** The checks `query` makes on one candidate: the included attributes
        after the pivot, then, if each had a value, the excluded ones. */
    method CheckCandidate(q: Query, entId: nat) returns (r: Result<bool, ZenError>)
      ensures r == Matches(Stores(), q, entId)
    {
      ghost var stores := Stores();
      // required keys after the pivot: stop at the first missing value
      var j := 1;
      while j < |q.includes|
        invariant 1 <= j
        invariant IncludesFrom(stores, q.includes, entId, 1) == IncludesFrom(stores, q.includes, entId, j)
      {
        var a := GetAttribute(q.includes[j]);
        if a.Err? {
          return Err(a.error);
        }
        if a.value.instances.Get(entId).None? {
          return Ok(false);
        }
        j := j + 1;
      }
      // excluded keys: stop at the first value present
      j := 0;
      while j < |q.excludes|
        invariant 0 <= j
        invariant ExcludesFrom(stores, q.excludes, entId, 0) == ExcludesFrom(stores, q.excludes, entId, j)
      {
        var a := GetAttribute(q.excludes[j]);
        if a.Err? {
          return Err(a.error);
        }
        if a.value.instances.Get(entId).Some? {
          return Ok(false);
        }
        j := j + 1;
      }
      r := Ok(true);
    }

    /** `query(q)`: scan the pivot store in order, keep the ids that have
        every other included attribute and no excluded one. */
    method Query(q: Query) returns (r: Result<seq<nat>, ZenError>)
      ensures r == Evaluate(Stores(), q)
    {
      if |q.includes| == 0 {
        return Err(UndefinedPivot);
      }
      var b := GetAttribute(q.includes[0]);
      if b.Err? {
        return Err(b.error);
      }
      ghost var stores := Stores();
      var order := b.value.instances.keys;
      var found: seq<nat> := [];
      var i := 0;
      while i < |order|
        invariant 0 <= i <= |order|
        invariant Scan(stores, q, order, i) == Ok(found)
      {
        var entId := order[i];
        var ent := GetEntityById(entId);
        var matched := CheckCandidate(q, entId);
        if matched.Err? {
          ScanErrSticks(stores, q, order, i + 1, |order|);
          return Err(matched.error);
        }
        if matched.value {
          found := found + [ent.value];
        }
        i := i + 1;
      }
      r := Ok(found);
    }

    /** `createSystem(q, fn, {name, frequency})`: a new entity carrying a
        fresh system in the System store. */
    method CreateSystem(q: Query, fn: Callback, name: Option<string>, frequency: Option<real>) returns (id: nat)
      requires Valid()
      modifies this`live, this`names, this`nextId, this`trace, attributes[SystemKey]
      ensures Valid()
      ensures id == old(nextId) && nextId == old(nextId) + 1
      ensures id !in old(live) && live == old(live) + {id}
      ensures Named(name) ==> names == old(names)[name.value := id]
      ensures !Named(name) ==> names == old(names)
      ensures trace == old(trace) + (if Named(name) && name.value in old(names) then [NameWarning(name.value)] else [])
      ensures var v := attributes[SystemKey].instances.Get(id);
        && v.Some? && v.value.SystemRef?
        && fresh(v.value.sys)
        && v.value.sys.query == q && v.value.sys.fn == fn
        && v.value.sys.interval == IntervalOf(frequency) && v.value.sys.elapsedInterval == 0.0
        && attributes[SystemKey].instances == old(attributes[SystemKey].instances).Set(id, v.value)
      ensures forall k :: k in attributes && k != SystemKey ==> attributes[k].instances == old(attributes[k].instances)
      ensures forall k :: k in attributes ==> attributes[k].hookCalls == old(attributes[k].hookCalls)
    {
      id := CreateEntity(name);
      var sys := new System(q, fn, frequency);
      var r := SetEntityAttribute(id, SystemKey, SystemRef(sys));
    }

    /** One pass of the loop in `update(dt)`, over `vals[i]`: a system
        value runs its own `update(dt)`; any other value throws a TypeError. */
    method UpdateOne(vals: seq<Value>, i: nat, dt: real, ghost stores: map<AttrKey, OrderedMap<nat, Value>>,
                     ghost el0: map<System, real>, ghost tr0: seq<Event>, ghost t: Tick)
      returns (out: Outcome<ZenError>, ghost t': Tick)
      requires Stores() == stores
      requires i < |vals| && SystemsIn(vals) <= el0.Keys
      requires t == UpdatePrefix(stores, vals, el0, dt, i) && t.failure.None?
      requires trace == tr0 + t.calls
      requires forall s :: s in el0 ==> s.elapsedInterval == t.elapsed[s]
      modifies (if vals[i].SystemRef? then {vals[i].sys} else {}), this`trace
      ensures Stores() == stores
      ensures t' == UpdatePrefix(stores, vals, el0, dt, i + 1)
      ensures trace == tr0 + t'.calls
      ensures forall s :: s in el0 ==> s.elapsedInterval == t'.elapsed[s]
      ensures out == (if t'.failure.Some? then Fail(t'.failure.value) else Pass)
    {
      UpdatePrefixNext(stores, vals, el0, dt, i);
      t' := Visit(stores, t, vals[i], dt);
      match vals[i]
      case Data(_) =>
        out := Fail(NotASystem);
      case SystemRef(s) =>
        ghost var st := SystemStep(stores, s, t.elapsed[s], dt);
        assert t' == Tick(t.elapsed[s := st.elapsed], t.calls + st.calls, st.failure);
        out := s.Update(this, dt);
    }

    /** The loop of `update(dt)` over the values `vals` of the System store,
        with accumulators `el0` and trace `tr0` at its start. */
    method UpdateAll(vals: seq<Value>, dt: real, ghost stores: map<AttrKey, OrderedMap<nat, Value>>,
                     ghost el0: map<System, real>, ghost tr0: seq<Event>)
      returns (r: Outcome<ZenError>)
      requires Stores() == stores && trace == tr0
      requires SystemsIn(vals) <= el0.Keys
      requires forall s :: s in el0 ==> s.elapsedInterval == el0[s]
      modifies el0.Keys, this`trace
      ensures var t := UpdatePrefix(stores, vals, el0, dt, |vals|);
        && trace == tr0 + t.calls
        && (forall s :: s in el0 ==> s.elapsedInterval == t.elapsed[s])
        && r == (if t.failure.Some? then Fail(t.failure.value) else Pass)
    {
      var i := 0;
      ghost var t := UpdatePrefix(stores, vals, el0, dt, 0);
      r := Pass;
      while i < |vals| && r.Pass?
        invariant 0 <= i <= |vals|
        invariant Stores() == stores
        invariant t == UpdatePrefix(stores, vals, el0, dt, i)
        invariant r == (if t.failure.Some? then Fail(t.failure.value) else Pass)
        invariant trace == tr0 + t.calls
        invariant forall s :: s in el0 ==> s.elapsedInterval == t.elapsed[s]
      {
        r, t := UpdateOne(vals, i, dt, stores, el0, tr0, t);
        i := i + 1;
      }
      if r.Fail? {
        UpdateFailureSticks(stores, vals, el0, dt, i, |vals|);
      }
    }

    /** `update(dt)`: update every system in the System store, in its
        order. A system that throws stops the tick; the systems before it
        keep their effects. */
    method Update(dt: real) returns (r: Outcome<ZenError>)
      requires Valid()
      modifies Systems(), this`trace
      ensures Valid() && Stores() == old(Stores())
      ensures var vals := old(SystemValues());
        var t := UpdatePrefix(old(Stores()), vals, old(Elapsed()), dt, |vals|);
        && trace == old(trace) + t.calls
        && (forall s :: s in old(Systems()) ==> s.elapsedInterval == t.elapsed[s])
        && r == (if t.failure.Some? then Fail(t.failure.value) else Pass)
    {
      var vals := attributes[SystemKey].instances.Values(); // getAttribute(System) cannot throw
      r := UpdateAll(vals, dt, Stores(), Elapsed(), trace);
    }
  }
}
