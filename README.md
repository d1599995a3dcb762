# Entity-attribute runtimes, modelled in Dafny

This project models the two entity-attribute runtimes at the heart of the
game code base. Every gameplay module is a client of one of them.

- `src/zen.ts` is a module-level runtime keyed by object identity. Its state is:
  - a set of live entity ids;
  - a name → entity table;
  - a key → attribute registry, where each attribute holds an
    insertion-ordered `instances` map and optional `onAdd`/`onRemove` hooks;
  - a monotonically increasing `nextId`.

  Systems are entities carrying the `System` attribute. `update(dt)` walks
  that store in order, and each system throttles itself with an accumulator
  `elapsedInterval` against `interval = 1 / frequency`.
- `src/state.ts` is an object-based runtime keyed by name.
  - A `State` table holds named `Database`s.
  - Each database has a dense entity array (the id is the index, and a deleted
    slot holds `undefined`) and string-named `Attribute`s.
  - Each attribute holds an `instances` map and a keyed table of change
    effects, which `Entity.set` and `Entity.delete` run.
  - `query` returns views that carry the id and a name → value record.

Both runtimes are imperative, and the model keeps that form.
- The zen globals are the fields of a `World` class.
- Attributes, systems, databases, entities and the state table are classes.
- Their methods update fields in place under `modifies` frames.
- Each loop is a `while`/`for` loop with invariants.

The query and update methods are proved against pure functions that
define their results, and the lemmas state what those functions mean:
- `query` is tied to `Evaluate` and `Scan`. The lemmas show that a
  well-formed query is exactly the include/exclude filter `Filtered` over
  the pivot store's order, without duplicates, and say which key an error
  names.
- `update` is tied to `UpdatePrefix`, a fold of `SystemStep` over the System
  store. The throttle arithmetic has its own lemmas.

The other methods state their new state directly in their `ensures`.

Modules:

| file | module | contents |
|---|---|---|
| wrappers.dfy | Wrappers | `Option`, `Result`, `Outcome` |
| js_map.dfy | JsMap | a JavaScript `Map`: a key order plus entries (`Get`, `Set`, `Delete`, `Values`) |
| query_core.dfy | QueryCore | the include/exclude checks both runtimes make, and the reference filter |
| zen_query.dfy | ZenQuery | what `query` in src/zen.ts computes |
| zen_throttle.dfy | ZenThrottle | the system throttle arithmetic |
| zen.dfy | Zen | `World`, `Attribute` and `System` of src/zen.ts |
| state_query.dfy | StateQuery | what `Database.query` in src/state.ts computes |
| state.dfy | StateRuntime | `State`, `Database`, `Entity` and `Attribute` of src/state.ts |

Hooks, change effects and system callbacks are opaque values. Each
invocation is appended to a ghost log:
- `Zen.Attribute.hookCalls` for hook calls;
- `Zen.World.trace` for callbacks and name warnings;
- `StateRuntime.Attribute.effectRuns` for change effects.

This makes "fires exactly once, with this value, in this order" a
statement about state.

### Behaviour modelled as the code has it

- **zen `deleteEntity`.** The cascade iterates `Object.values` of a `Map`,
  which has no own enumerable properties, so the loop never runs. Its body
  would call a `deleteInstance` that does not exist. Only the live set
  changes: no instance is removed and no `onRemove` fires, so the id can
  still be returned by `query`.
- **zen `setAttribute`.** It never calls `onAdd`, although the hook is stored.
- **zen `getEntityById`.** The test `entities.has(id) !== undefined` always
  holds, so every id yields an entity.
- **zen `defineAttribute`.** Re-defining a key silently replaces its store,
  together with its hooks.
- **zen `query` with an empty `include`.** It looks up the key `undefined`
  and throws. This is modelled as `UndefinedPivot`.
- **zen `update`.** A value in the System store that is not a system would
  throw a TypeError when its `update` is called. This is modelled as
  `NotASystem`.
- **zen `System.update`.** It runs the system only when the accumulator
  strictly exceeds the interval (src/zen.ts:175); reaching it is not enough.
- **A query error.** It stops `update`. The systems visited earlier keep
  their effects, and later ones do not run.
- **state `deleteEntity(id)` with `id` at or past the array length.** It
  grows the array to `id + 1`, so the next `addEntity` skips ahead.
- **state `query` with an empty `include`.** It looks up the property
  `"undefined"`.
- **Order of query errors.** In both runtimes an unknown key after the
  pivot is looked up only when some candidate reaches it. A query therefore
  throws only if a candidate gets that far, and the model's error depends on
  the data in the same way. Which key is the pivot therefore decides
  whether a query naming an unregistered key throws, and an unknown
  optional name turns a result into an error.

## Model

| member | source | states |
|---|---|---|
| JsMap.DeleteThenSetMovesToEnd | src/zen.ts:151 | re-setting a present key keeps its place in the iteration order; deleting it and then setting it moves it to the end |
| JsMap.SetValues | src/state.ts:168-170 | after `set(k, v)`, a present key's value is replaced in place and every other value keeps its position; a new key's value is appended |
| QueryCore.IncludesFromDefined | src/zen.ts:75-83 | with every key registered, the required-attribute loop from position j passes exactly when the id has a value in every store of `include[j..]` |
| QueryCore.ExcludesFromDefined | src/zen.ts:86-95 | with every key registered, the excluded-attribute loop passes exactly when the id has a value in none of the stores |
| QueryCore.IncludesFromErr | src/zen.ts:74-83 | the required-attribute loop throws only for a listed key that is really unregistered |
| QueryCore.ExcludesFromErr | src/zen.ts:85-95 | the excluded-attribute loop throws only for a listed key that is really unregistered |
| QueryCore.FilteredMembers | src/zen.ts:65-102 | the filtered list holds exactly the ids of the pivot order that every required store has and no excluded store has |
| QueryCore.FilteredDistinct | src/zen.ts:65-102 | the filtered list repeats no id when the pivot order repeats none |
| ZenQuery.MatchesDefined | src/zen.ts:72-98 | for a well-formed query, the per-candidate checks decide exactly the reference filter `Selected` |
| ZenQuery.ScanDefined | src/zen.ts:70-99 | for a well-formed query, scanning the first n pivot keys yields the filter of those keys, in pivot order |
| ZenQuery.QueryIsFilter | src/zen.ts:65-102 | a well-formed query never throws and returns the filtered pivot order |
| ZenQuery.QueryMembership | src/zen.ts:65-102 | for a well-formed query (every listed key registered), an id is returned iff every included store has it and no excluded store has it; the result has no duplicates |
| ZenQuery.QueryPivotIndependent | src/zen.ts:65-102 | for well-formed queries (every listed key registered), the set of returned ids does not depend on which included key is the pivot, nor on the order of either list |
| ZenQuery.PivotOrderDecidesError | src/zen.ts:65-102 | with an unregistered key listed, swapping the pivot turns an empty result into an `UndefinedAttribute` error |
| ZenQuery.ScanErrSticks | src/zen.ts:70-99 | once a candidate has thrown, the later candidates do not change the outcome |
| ZenQuery.MatchesErr | src/zen.ts:74-95 | a candidate check throws only for an unregistered included or excluded key |
| ZenQuery.ScanErr | src/zen.ts:70-99 | the scan throws only for an unregistered included or excluded key |
| ZenQuery.QueryErrorNamesUndefinedKey | src/zen.ts:58-66 | `query` reports a missing pivot iff `include` is empty; otherwise it names a listed key that is unregistered |
| ZenThrottle.IntervalOf | src/zen.ts:161-171 | a non-zero frequency gives `interval * frequency == 1`; a missing or zero frequency leaves the interval at 0 |
| ZenThrottle.AdvanceBounded | src/zen.ts:173-185 | after an update the accumulator is 0 or at most the interval, and it stays non-negative for non-negative steps |
| ZenThrottle.ThrottleBound | src/zen.ts:173-185 | over any run of ticks, runs × interval plus the final accumulator is at most the starting accumulator plus the total time fed in, so there is at most one run per interval |
| ZenThrottle.TicksNonneg | src/zen.ts:173-185 | with non-negative steps from a non-negative accumulator, the accumulator stays non-negative |
| ZenThrottle.RunsWithinElapsedTime | src/zen.ts:173-185 | a fresh system fed non-negative steps runs at most once per interval of total elapsed time: runs × interval ≤ the sum of the steps |
| ZenThrottle.FrequencyTwoExample | src/zen.ts:166-185 | at 2 Hz, four ticks of 0.3 run the system exactly twice and leave the accumulator at 0; three ticks run it once and leave 0.3 |
| ZenThrottle.UnthrottledRunsEveryPositiveTick | src/zen.ts:161-176 | without a frequency a system runs on every tick with a positive step |
| Zen.SystemStepThrottles | src/zen.ts:173-185 | a system whose query does not throw follows the throttle arithmetic and calls `fn` on the query results exactly when it is due |
| Zen.UpdateFailureSticks | src/zen.ts:104-110 | once a system has thrown, the systems after it are not visited |
| Zen.Attribute.constructor | src/zen.ts:114-122 | the store keeps the given hooks, with no instances and no hook calls |
| Zen.Attribute.RemoveInstance | src/zen.ts:124-129 | with a value present, `onRemove` (when set) is called once with that value and the value is then deleted; without one, nothing changes and no hook fires |
| Zen.System.constructor | src/zen.ts:166-171 | the system keeps its query and `fn`, its interval is `IntervalOf(frequency)` and its accumulator starts at 0 |
| Zen.System.Update | src/zen.ts:173-176 | the accumulator, the callbacks logged and the error raised are exactly `SystemStep` of the stores, the old accumulator and `dt` |
| Zen.System.Execute | src/zen.ts:178-185 | `fn` is called once per query result, in order, and then the accumulator is 0; a throwing query leaves both the accumulator and the log alone |
| Zen.World.constructor | src/zen.ts:1-4 | there are no entities or names, `nextId` is 0, and the only store is a new, empty System store with no hooks and no hook calls (the registration at line 188) |
| Zen.World.DefineAttribute | src/zen.ts:6-12 | `key` now maps to a fresh, empty store with the given hooks, replacing any old one; every other store is the same object |
| Zen.World.CreateEntity | src/zen.ts:24-40 | returns the old `nextId`, which was not live; increments `nextId` by one and adds the id to the live set; a non-empty name is bound to it (last wins), with a warning logged iff the name was already bound |
| Zen.World.DeleteEntity | src/zen.ts:42-48 | only the id leaves the live set; every store and every hook log is unchanged |
| Zen.World.GetEntity | src/zen.ts:50-52 | returns the entity currently bound to the name, or nothing if the name is unbound |
| Zen.World.GetEntityById | src/zen.ts:54-56 | every id yields an entity, live or not |
| Zen.World.GetAttribute | src/zen.ts:58-63 | returns the registered store, or an `UndefinedAttribute` error for an unregistered key |
| Zen.World.GetEntityAttribute | src/zen.ts:144-147 | returns the entity's value in the store (or absent), or an error for an unregistered key |
| Zen.World.SetEntityAttribute | src/zen.ts:149-152 | stores the value under the id, so `Get` returns it and the other ids keep their values; the other stores are unchanged and no hook fires; an unregistered key changes nothing and fails |
| Zen.World.RemoveEntityAttribute | src/zen.ts:154-157 | deletes the entity's value; `onRemove` fires once with the old value iff one was present and a hook is set; the other stores are unchanged; an unregistered key changes nothing and fails |
| Zen.World.CheckCandidate | src/zen.ts:72-95 | the result is exactly `Matches`: the included checks after the pivot, then the excluded ones, each loop stopping at the first decisive key |
| Zen.World.Query | src/zen.ts:65-102 | the result is exactly `Evaluate` of the current stores |
| Zen.World.CreateSystem | src/zen.ts:14-22 | creates an entity as `createEntity` does and stores in the System store, under its id, a fresh system with the query, `fn`, interval and a zero accumulator; the other stores and all hook logs are unchanged |
| Zen.World.UpdateOne | src/zen.ts:107-109 | visiting one value of the System store advances the state exactly as `Visit`: a system runs its own update, and a non-system value throws |
| Zen.World.UpdateAll | src/zen.ts:104-110 | after the loop, every system's accumulator, the callback log and the outcome are those of `UpdatePrefix` over all values |
| Zen.World.Update | src/zen.ts:104-110 | the stores are unchanged; every system's accumulator, the callback log and the outcome are those of folding `SystemStep` over the System store in its order, stopping at the first error |
| StateQuery.RecordContents | src/state.ts:97-105 | writing the names into the view record gives each name its store's value or `undefined`, keeps every earlier entry, and adds nothing else |
| StateQuery.FirstUndefinedSpec | src/state.ts:98-105 | the optional loop throws iff some optional name has no attribute, and then it names one |
| StateQuery.CandidateDefined | src/state.ts:64-108 | for a well-formed query, a candidate yields its view iff it passes the reference filter, and nothing otherwise |
| StateQuery.ScanDefined | src/state.ts:63-109 | for a well-formed query, scanning the first n pivot keys yields the views of the filtered keys, in pivot order |
| StateQuery.QueryIsFilter | src/state.ts:59-112 | a well-formed query never throws and returns the views of exactly the filtered pivot order |
| StateQuery.QueryMembership | src/state.ts:59-112 | for a well-formed query (every listed name has an attribute), a view for an id is returned iff the pivot has it, every included attribute has it and no excluded one has it; no id is returned twice |
| StateQuery.QueryViews | src/state.ts:64-105 | each view holds the pivot value and each included value under its name, each optional name with its value or `undefined`, and no other name |
| StateQuery.OptionalsDoNotFilter | src/state.ts:97-108 | for a well-formed query (every listed name, optional ones included, has an attribute), the optional list never changes which ids are returned, or their order |
| StateQuery.CandidateErr | src/state.ts:72-105 | a candidate throws only for a listed name that has no attribute |
| StateQuery.ScanErr | src/state.ts:63-109 | the scan throws only for a listed name that has no attribute |
| StateQuery.QueryErrorNamesUndefinedAttribute | src/state.ts:52-112 | `query` throws only for a name that has no attribute, and that name is the pivot or a listed name |
| StateQuery.ScanErrSticks | src/state.ts:63-109 | once a candidate has thrown, the later candidates do not change the outcome |
| StateRuntime.Cleared | src/state.ts:34 | assigning slot `id` keeps the array length when `id` is inside it and grows it to `id + 1` otherwise |
| StateRuntime.ClearedFreesOnlyId | src/state.ts:33-34 | clearing frees slot `id`, keeps every other slot taken or free as before, and keeps each taken slot holding its own index |
| StateRuntime.DeletePastEndSkipsIds | src/state.ts:26-34 | deleting at or past the end makes the array `id + 1` long with every new slot free, so the next `addEntity` returns `id + 1` |
| StateRuntime.Attribute.constructor | src/state.ts:157-166 | the attribute is named, with no instances, no effects and no effect runs |
| StateRuntime.Attribute.OnChange | src/state.ts:168-170 | registers the effect under its key; a registered key keeps its position and has its effect replaced, and a new key is appended |
| StateRuntime.Attribute.Change | src/state.ts:172-176 | every registered effect runs once, in registration order |
| StateRuntime.Database.constructor | src/state.ts:17-24 | the database is named, with no entities and no attributes |
| StateRuntime.Database.AddEntity | src/state.ts:26-31 | the id is the old array length and the array is extended by that id; the new id is live and no other slot changes |
| StateRuntime.Database.DeleteEntity | src/state.ts:33-39 | slot `id` is cleared, growing the array past its end if needed; `id` is deleted from every attribute's instances, other ids keep their values, and no effect runs |
| StateRuntime.Database.AddAttribute | src/state.ts:41-45 | installs a fresh, empty attribute under the name, replacing any old one |
| StateRuntime.Database.GetEntity | src/state.ts:47-50 | returns an entity iff slot `id` is taken |
| StateRuntime.Database.GetAttribute | src/state.ts:52-57 | returns the attribute of that name, or an `UndefinedAttribute` error |
| StateRuntime.Database.CheckIncludes | src/state.ts:72-83 | the required loop reports the include scan's outcome; on success the record holds every included value |
| StateRuntime.Database.CheckExcludes | src/state.ts:85-95 | the excluded loop reports the exclude scan's outcome |
| StateRuntime.Database.AddOptionals | src/state.ts:97-105 | the optional loop throws at the first undefined name, and otherwise writes every optional value into the record |
| StateRuntime.Database.Inspect | src/state.ts:64-108 | the work of the outer loop for one pivot entry is exactly `Candidate` of the stores |
| StateRuntime.Database.ScanPivot | src/state.ts:63-109 | the outer loop yields exactly `Scan` over the pivot's whole order |
| StateRuntime.Database.Query | src/state.ts:59-112 | the result is exactly `Evaluate` of the current stores |
| StateRuntime.Entity.constructor | src/state.ts:134-137 | the handle keeps its id and database |
| StateRuntime.Entity.Get | src/state.ts:139-142 | returns the entity's value (or `undefined`), or an error for an unknown name |
| StateRuntime.Entity.Set | src/state.ts:144-148 | stores the value under the id, leaves the other attributes unchanged, then runs every effect of the attribute once, in order; an unknown name fails and changes nothing |
| StateRuntime.Entity.Delete | src/state.ts:150-154 | deletes the entity's value and then runs every effect once, in order, even when nothing was stored; an unknown name fails and changes nothing |
| StateRuntime.State.constructor | src/state.ts:1-2 | the state has no databases |
| StateRuntime.State.AddDatabase | src/state.ts:4-7 | registers the database under its own name, replacing any old one, and returns the same state |
| StateRuntime.State.GetDatabase | src/state.ts:9-14 | returns the database of that name, or an `UndefinedWorld` error |

## Left out

- **Opaque callbacks.** The bodies of hooks, change effects and system `fn`s are outside the model, and so is anything they would do to the runtime: re-entrant mutation, or throwing. Each call is logged and has no other effect.
- **The console warning.** `console.log` in `createEntity` is an event in the trace; its text is not modelled.
- **Number range.** Ids and counters are unbounded naturals. The `2^53` limit of a JavaScript number, and ids that are not non-negative integers, are not modelled.
- **Floating point.** Times, frequencies and intervals are exact reals; rounding in the throttle arithmetic is not modelled.
- **Property-key lookup.** Attributes and databases are looked up by exact key. A state.ts name that hits an inherited property of a plain object, such as `"toString"`, would look defined in JavaScript; that is not modelled.
- **Stored `undefined`.** A value of `undefined` stored in an instance map (which `get` cannot tell from absence) is not modelled. Values are opaque naturals or system references.
- StateRuntime.Database.DeleteEntity: visits the attributes in an arbitrary order rather than in the order `Object.values` gives. The deletions touch disjoint maps, so the final state is the same.
- **View records.** A view record is a map, so the key order of a JavaScript object is not modelled.
- **Entity handles.** zen.ts `Entity` objects only wrap an id, so the model uses the id itself, and `Entity.getAttribute/setAttribute/removeAttribute` are `World` methods taking the id. The fresh `Entity` that `getEntityById` and `query` allocate is likewise the id.
- **Resources and once-per-tick callbacks.** Only their client call sites exist, with no implementation in these runtimes.
- **Other source files.** Rendering, input, gameplay modules, math helpers and constant tables (`src/math.ts`, `src/graphics.ts`, `src/movement.ts` and the rest) are not part of this model.
- **Class invariants.** The state-changing methods require their class's `Valid()`, and ensure it again. For a `World` this means one store object per key, well-formed maps, and live and named ids below `nextId`; for a `Database`, attributes named by their keys and taken slots holding their own index. The source never states these invariants, but every one of its operations keeps them.
