# Incremental secondary index (bevy_mod_index), modelled in Dafny

This project models the core of `src/index.rs` of bevy_mod_index. That file
implements a secondary index over the components of a bevy world.

- An `IndexStorage` resource holds a unique multimap and a watermark,
  `last_refresh_tick`. The multimap maps an indexed value to the set of
  entities with that value, and each entity sits under at most one value.
- An `Index` handle borrows the storage, a query over `(entity, component)`
  pairs with their change ticks, and the tick of the current system.
- `Index::refresh` does nothing when the watermark has already reached the
  current tick. Otherwise it makes one pass over the live components and
  re-inserts every entity whose component passes the change test. The test
  compares the change stamp with `last_refresh_tick.wrapping_sub(1)`. Then the
  watermark moves to the current tick.
- `Index::lookup` refreshes and then reads the multimap.

Files:

- `ticks.dfy` (module `Ticks`): ticks as `u32` values with wrapping subtraction;
  `Since`, the comparison base `watermark.wrapping_sub(1)`; `ChangeTest`, the
  type of the host's change test; and `WrappingAgeIsOlderThan`, an ASSUMED body
  for that test, used only by the scenarios.
- `unique_multimap.dfy` (module `UniqueMultiMaps`): class `UniqueMultiMap` with a
  forward map (value -> entities) and a reverse map (entity -> value), `Insert`
  and `Get`. It follows the contract of `crate::unique_multimap` as `index.rs`
  uses it. That crate's source is not part of this model.
- `index.dfy` (module `SecondaryIndex`): the abstract state `StorageState`
  (entity -> value association, watermark) and the specification functions
  `Reindexed` (the loop), `Refreshed` (`refresh`) and `EntitiesWith` (what a
  lookup returns). It also holds the lemmas about those functions and the
  classes `IndexStorage` and `Index`. Their methods `Refresh` and `Lookup`
  update the storage in place and are proved against `Refreshed`.
- `scenarios.dfy` (module `IndexScenarios`): the three `#[test]`s of `index.rs`,
  replayed as client methods on `IndexStorage` and `Index`.

The host's change test (`Tick::is_older_than`) is an input: `Index` carries it
as a field of type `ChangeTest`, and every general lemma holds for every test.
The component query becomes a sequence of `Row(entity, component, lastChanged)`.
`IndexInfo::value` becomes the field `value: C -> K`.

## Model

| member | source | states |
|---|---|---|
| `Ticks.Since` | src/index.rs:54 | The base is the watermark minus one. At watermark 0 it wraps to `u32::MAX`. |
| `Ticks.WrappingSub` | src/index.rs:54 | `u32::wrapping_sub`: the plain difference without underflow, and the difference plus 2^32 with it. |
| `Ticks.SameStepChangeSeen` | src/index.rs:51-55 | Under the assumed change test, a change stamped in the step that set the watermark is seen by the next refresh. Using the watermark itself as the base would miss it. |
| `Ticks.FirstRefreshSeesAll` | src/index.rs:54-55 | Under the assumed change test and for a current tick below `u32::MAX`, the first refresh (watermark 0, base `u32::MAX`) sees every component stamped at or before the current tick. |
| `Ticks.WrappingAgeIsOlderThan` | src/index.rs:54-55 | The assumed body of the change test: a stamp equal to the base never passes, and a stamp made at the current tick always passes against an older base. |
| `Ticks.WrappingAgeIsOrder` | src/index.rs:54-55 | Without wrap-around, the assumed change test is the plain order "stamp later than the base", in both directions. |
| `UniqueMultiMaps.UniqueMultiMap.constructor` | src/index.rs:25 | The default multimap is empty and consistent. |
| `UniqueMultiMaps.UniqueMultiMap.Get` | src/index.rs:42 | `get(k)` is exactly the entities whose reverse entry is `k`. It is empty when there are none, never an error. |
| `UniqueMultiMaps.UniqueMultiMap.Insert` | src/index.rs:58 | `insert(k, e)` drops `e` from its previous value's set and adds it under `k`. The reverse map becomes `old[e := k]`. The forward and reverse maps stay consistent. |
| `UniqueMultiMaps.UniqueMultiMap.EntityUnderOneValue` | src/index.rs:19 | No entity is found under two different values. |
| `SecondaryIndex.DefaultState` | src/index.rs:22-29 | The default storage finds no entity under any value, and its watermark is 0. |
| `SecondaryIndex.IndexStorage.constructor` | src/index.rs:22-29 | A fresh storage has an empty multimap and `last_refresh_tick == 0`. |
| `SecondaryIndex.Reindexed` | src/index.rs:50-60 | The refresh loop never drops an entity. It only adds entities that appear in the live view. |
| `SecondaryIndex.Refreshed` | src/index.rs:45-62 | After a refresh the watermark is the larger of the old watermark and the current tick. The association keeps every entity it had. |
| `SecondaryIndex.RefreshUpToDateIsNoOp` | src/index.rs:46-48 | When `last_refresh_tick >= current_tick`, the storage is left exactly unchanged, whatever the live view. |
| `SecondaryIndex.RefreshIdempotent` | src/index.rs:46-48 | Refreshing twice at the same tick is the same as refreshing once. |
| `SecondaryIndex.ReindexedChangedRow` | src/index.rs:54-58 | Every live row that passes the change test ends with its entity under `value(component)`. Entities in the live view are distinct. |
| `SecondaryIndex.ReindexedUnchangedEntity` | src/index.rs:54-59 | An entity with no passing row keeps exactly its previous association, or stays absent. |
| `SecondaryIndex.ReindexedNothingChanged` | src/index.rs:50-60 | A pass in which no row passes the change test leaves the association unchanged. |
| `SecondaryIndex.LookupOfChangedEntity` | src/index.rs:40-43 | After a refresh that runs the pass, a re-inserted entity is found under its component's value and under no other value. |
| `SecondaryIndex.LookupOfUnchangedEntity` | src/index.rs:40-43 | After a refresh, an entity that was not re-inserted is found under exactly the values it was found under before. |
| `SecondaryIndex.RefreshKeepsIndexAccurate` | src/index.rs:40-61 | A refresh that runs the pass keeps the index accurate. Suppose every live entity whose row fails the change test was already under its component's value. Then afterwards every live entity is under its component's value, and a lookup of `v` finds a live entity exactly when its component yields `v`. |
| `SecondaryIndex.LookupOfUnknownValue` | src/index.rs:40-43 | A value that no entity had and no live component yields is looked up as the empty set. |
| `SecondaryIndex.ReindexedAvoidsValue` | src/index.rs:50-60 | The pass never introduces a value that no live component yields. |
| `SecondaryIndex.WatermarkIsMaximum` | src/index.rs:46-61 | After any sequence of refreshes, the watermark is the largest tick seen. |
| `SecondaryIndex.Index.Refresh` | src/index.rs:45-62 | The in-place refresh (guard, loop of `insert`s, watermark assignment) yields `Refreshed` of the old state. The multimap stays consistent. |
| `SecondaryIndex.Index.Lookup` | src/index.rs:40-43 | `lookup(v)` refreshes and then returns exactly the refreshed association's entities under `v`. |
| `IndexScenarios.NumberValue` | src/index.rs:151-153 | `IndexInfo::value` for `Number` is a clone: the indexed value equals the component. |
| `IndexScenarios.Spawned` | src/index.rs:156-161 | The live view after `add_some_numbers`. The body lists the numbers 10, 10, 20 and 30; the contract states that the entities are distinct and all stamped at tick 1. |
| `IndexScenarios.AddedFive` | src/index.rs:178-184 | After `adder_all(5)` every spawned entity holds its number plus 5, stamped at tick 5, and the entities stay distinct. |
| `IndexScenarios.AddTo` | src/index.rs:191-195 | The host side of `adder_some`: each row keeps its entity; a row of a targeted entity gets its number raised by `n` and its stamp set to the current tick; every other row is unchanged. |
| `IndexScenarios.SpawnedAreIndexed` | src/index.rs:156-161 | The first refresh after `add_some_numbers` indexes 10, 10, 20 and 30. |
| `IndexScenarios.SeenOnce` | src/index.rs:46-61 | Once the watermark has passed every stamp, a refresh moves only the watermark. |
| `IndexScenarios.AddedFiveAreReindexed` | src/index.rs:178-184 | After `adder_all(5)` every entity moves to its new value. |
| `IndexScenarios.MovedTenAreReindexed` | src/index.rs:186-197 | A change made in the same step as the adder's own lookup is still picked up by the next refresh. |
| `IndexScenarios.Checker` | src/index.rs:163-176 | A checker system refreshes the storage and reports the size of the lookup. |
| `IndexScenarios.UpToDateCheckers` | src/index.rs:199-237 | A run of checker systems at consecutive ticks, over a live view the watermark has passed, leaves the association unchanged. Its watermark ends at the last tick, and each checker reports the size of its lookup. |
| `IndexScenarios.SpawnedCheckers` | src/index.rs:199-208 | The checkers after the startup system index the spawned numbers. Each reports the size of its lookup on that index. |
| `IndexScenarios.AddedFiveCheckers` | src/index.rs:217-223 | After `adder_all(5)`, the PostUpdate checkers move every entity to its new value. Each reports the size of its lookup on that index. |
| `IndexScenarios.AdderSome` | src/index.rs:186-197 | `adder_some(10, 10)` looks 10 up through the index, which refreshes it to tick 4 and finds entities 1 and 2. It then raises exactly those numbers by 10. |
| `IndexScenarios.MovedTenCheckers` | src/index.rs:233-235 | After `adder_some`, the PostUpdate checkers see the moved entities. Each reports the size of its lookup on the moved index. |
| `IndexScenarios.SpawnedIndexAmounts` | src/index.rs:199-208 | After the spawn, lookups of 10/20/30/40 have sizes 2/1/1/0. |
| `IndexScenarios.IndexLookupScenario` | src/index.rs:199-208 | `test_index_lookup`: the checkers report 2, 1, 1 and 0. |
| `IndexScenarios.AddedFiveIndexAmounts` | src/index.rs:218-223 | After +5, lookups of 10/20/30 have size 0 and lookups of 15/25/35 have sizes 2/1/1. |
| `IndexScenarios.ChangingValuesScenario` | src/index.rs:210-225 | `test_changing_values`: the checkers report 2, 1, 1, then 0, 0, 0, 2, 1, 1. |
| `IndexScenarios.MovedTenIndexAmounts` | src/index.rs:234-235 | After `adder_some(10, 10)`, a lookup of 10 has size 0 and a lookup of 20 has size 3. |
| `IndexScenarios.ChangingWithIndexScenario` | src/index.rs:227-237 | `test_changing_with_index`: the checkers report 2, 1, then 0, 3. |

## Left out

- The `SystemParam` / `ReadOnlySystemParam` implementations and `IndexFetchState` (src/index.rs:65-137) are left out. They are host plumbing that hands out the storage, the query and the tick, and hold no index logic.
- The `println!` in the refresh loop (src/index.rs:57) is left out: it is output only.
- WrappingAgeIsOlderThan: the direction of this assumed body does not come from bevy's code. bevy's own `is_older_than` body, as far as it is known, returns true when the receiver (here the base `Tick::new(since)`) is the newer tick; with that direction the first refresh would index nothing and `checker(10, 2)` would see 0. The direction used here comes instead from the method's name, the comment at src/index.rs:51-53 and the counts the tests expect.
- bevy's `Tick::is_older_than` is an input of type `ChangeTest`, not a definition. The general lemmas hold for every such test. The scenarios and the `Ticks` lemmas about it use `WrappingAgeIsOlderThan`, which is an assumed body: "the stamp is strictly younger than the base, with ages counted back from the current tick by wrapping subtraction". Its `MAX_CHANGE_AGE` clamp is not modelled.
- `Ref::last_changed` becomes the `lastChanged` field of a `Row`.
- The tick numbers in the scenarios are assumptions about the bevy scheduler. The startup system is taken to run at tick 1 and each later system at the next tick. `App`, stages, `Commands` and `ParamSet` appear only through the live views and ticks that they produce.
- The order of query iteration is the order of the row sequence. The lemmas that say where an entity ends up assume distinct entities, as a query yields them.
- Entities that are despawned are never removed from the index. The source does not remove them either, so the model does not.
- `UniqueMultiMap.Insert` may leave an empty set under a value it emptied. The source of `crate::unique_multimap` is not part of this model. This choice cannot be observed through `Get`.
- `get` returns a cloned `HashSet`; the model returns a set value.
- The `Send + Sync + Hash + Eq + Clone` bounds on the indexed value become Dafny's equality-supporting type parameters.
- Refreshed keeps the plain unsigned guard `last_refresh_tick >= current_tick` of src/index.rs:46, as written. After the world tick wraps around, a watermark near `u32::MAX` turns every refresh into a no-op until the tick catches up again (an instance of `RefreshUpToDateIsNoOp`). The model records this behaviour and does not correct it.
- Ticks are integers in [0, 2^32) with wrapping subtraction written out, rather than `bv32`.
