/**
 The scenarios of the tests in `src/index.rs`, replayed on the model. The test
 component `Number` is its own indexed value. Entities are numbered 1 to 4 in
 spawn order. The ticks are those the host would hand out when the startup
 system runs at tick 1 and every later system at the next tick; the host's
 change test is taken to be `WrappingAgeIsOlderThan`, an assumed body.
 */
module IndexScenarios {
  import opened Ticks
  import opened SecondaryIndex

  /** `IndexInfo::value` of the test component `Number`: a clone, equal to
      the component itself. */
  function NumberValue(n: nat): (v: nat)
    ensures v == n
  {
    n
  }

  /** A refresh of the model with the test's extraction and the assumed change test. */
  function NumberRefreshed(s: StorageState<nat, int>, rows: seq<Row<int, nat>>, now: Tick): StorageState<nat, int>
  {
    Refreshed(s, rows, now, NumberValue, WrappingAgeIsOlderThan)
  }

  /** `add_some_numbers`: Number(10), Number(10), Number(20), Number(30), spawned at tick 1. */
  function Spawned(): (rows: seq<Row<int, nat>>)
    ensures DistinctEntities(rows)
    ensures forall i :: 0 <= i < |rows| ==> rows[i].lastChanged == 1
  {
    [Row(1, 10, 1), Row(2, 10, 1), Row(3, 20, 1), Row(4, 30, 1)]
  }

  /** The live view after `adder_all(5)` ran at tick 5. */
  function AddedFive(): (rows: seq<Row<int, nat>>)
    ensures DistinctEntities(rows) && |rows| == |Spawned()|
    ensures forall i :: 0 <= i < |rows| ==>
              rows[i] == Row(Spawned()[i].entity, Spawned()[i].component + 5, 5)
  {
    [Row(1, 15, 5), Row(2, 15, 5), Row(3, 25, 5), Row(4, 35, 5)]
  }

  /** The host's side of `adder_some(n, _)` at tick `now`: every entity in
      `targets` gets its number raised by `n` and its change stamped `now`. */
  function AddTo(rows: seq<Row<int, nat>>, targets: set<int>, n: nat, now: Tick): (r: seq<Row<int, nat>>)
    ensures |r| == |rows|
    ensures forall i :: 0 <= i < |rows| ==> r[i].entity == rows[i].entity
    ensures forall i :: 0 <= i < |rows| && rows[i].entity in targets ==>
              r[i].component == rows[i].component + n && r[i].lastChanged == now
    ensures forall i :: 0 <= i < |rows| && rows[i].entity !in targets ==> r[i] == rows[i]
  {
    seq(|rows|, i requires 0 <= i < |rows| =>
      if rows[i].entity in targets then Row(rows[i].entity, rows[i].component + n, now) else rows[i])
  }

  /** The index after the spawned numbers were first seen. */
  function SpawnedIndex(): map<int, nat>
  {
    map[1 := 10, 2 := 10, 3 := 20, 4 := 30]
  }

  /** The index after `adder_all(5)` was seen. */
  function AddedFiveIndex(): map<int, nat>
  {
    map[1 := 15, 2 := 15, 3 := 25, 4 := 35]
  }

  /** The index after `adder_some(10, 10)` was seen. */
  function MovedTenIndex(): map<int, nat>
  {
    map[1 := 20, 2 := 20, 3 := 20, 4 := 30]
  }

  /** The first refresh, from the default storage, indexes every spawned entity. */
  lemma SpawnedAreIndexed()
    ensures NumberRefreshed(DefaultState(), Spawned(), 2) == StorageState(SpawnedIndex(), 2)
  {
    var rows := Spawned();
    assert WrappingAgeIsOlderThan(Since(0), 1, 2);
    assert rows[..1][..0] == [] && rows[..2][..1] == rows[..1] && rows[..3][..2] == rows[..2] && rows[..4][..3] == rows[..3];
    assert Reindexed(map[], rows[..1], 0, 2, NumberValue, WrappingAgeIsOlderThan) == map[1 := 10];
    assert Reindexed(map[], rows[..2], 0, 2, NumberValue, WrappingAgeIsOlderThan) == map[1 := 10, 2 := 10];
    assert Reindexed(map[], rows[..3], 0, 2, NumberValue, WrappingAgeIsOlderThan) == map[1 := 10, 2 := 10, 3 := 20];
    assert rows[..4] == rows;
  }

  /** After `adder_all(5)`, the next refresh sees every number changed and
      moves each entity to its new value. */
  lemma AddedFiveAreReindexed(watermark: Tick, now: Tick)
    requires 0 < watermark <= 5 < now
    ensures NumberRefreshed(StorageState(SpawnedIndex(), watermark), AddedFive(), now) == StorageState(AddedFiveIndex(), now)
  {
    var rows := AddedFive();
    WrappingAgeIsOrder(Since(watermark), 5, now);
    assert rows[..1][..0] == [] && rows[..2][..1] == rows[..1] && rows[..3][..2] == rows[..2] && rows[..4][..3] == rows[..3];
    var m := SpawnedIndex();
    assert Reindexed(m, rows[..1], watermark, now, NumberValue, WrappingAgeIsOlderThan) == m[1 := 15];
    assert Reindexed(m, rows[..2], watermark, now, NumberValue, WrappingAgeIsOlderThan) == m[1 := 15][2 := 15];
    assert Reindexed(m, rows[..3], watermark, now, NumberValue, WrappingAgeIsOlderThan) == m[1 := 15][2 := 15][3 := 25];
    assert rows[..4] == rows;
  }

  /** After `adder_some(10, 10)` changed entities 1 and 2 at tick 4, in the step
      whose own lookup set the watermark to 4, the next refresh still sees them
      (the base is 3, not 4) and leaves entities 3 and 4 alone. */
  lemma MovedTenAreReindexed()
    ensures NumberRefreshed(StorageState(SpawnedIndex(), 4), AddTo(Spawned(), {1, 2}, 10, 4), 5) == StorageState(MovedTenIndex(), 5)
  {
    var rows := AddTo(Spawned(), {1, 2}, 10, 4);
    assert rows == [Row(1, 20, 4), Row(2, 20, 4), Row(3, 20, 1), Row(4, 30, 1)];
    assert WrappingAgeIsOlderThan(3, 4, 5) && !WrappingAgeIsOlderThan(3, 1, 5);
    assert rows[..1][..0] == [] && rows[..2][..1] == rows[..1] && rows[..3][..2] == rows[..2] && rows[..4][..3] == rows[..3];
    var m := SpawnedIndex();
    assert Reindexed(m, rows[..1], 4, 5, NumberValue, WrappingAgeIsOlderThan) == m[1 := 20];
    assert Reindexed(m, rows[..2], 4, 5, NumberValue, WrappingAgeIsOlderThan) == m[1 := 20][2 := 20];
    assert Reindexed(m, rows[..3], 4, 5, NumberValue, WrappingAgeIsOlderThan) == m[1 := 20][2 := 20];
    assert rows[..4] == rows;
  }

  /** Once the watermark is past every row's last change, the rows no longer
      pass the change test and a refresh changes nothing but the watermark. */
  lemma {:induction false} SeenOnce(m: map<int, nat>, rows: seq<Row<int, nat>>, watermark: Tick, now: Tick)
    requires 0 < watermark < now
    requires forall i :: 0 <= i < |rows| ==> rows[i].lastChanged < watermark
    ensures NumberRefreshed(StorageState(m, watermark), rows, now) == StorageState(m, now)
  {
    forall i | 0 <= i < |rows|
      ensures !PassesChangeTest(rows[i], watermark, now, WrappingAgeIsOlderThan)
    {
      WrappingAgeIsOrder(Since(watermark), rows[i].lastChanged, now);
    }
    ReindexedNothingChanged(m, rows, watermark, now, NumberValue, WrappingAgeIsOlderThan);
  }

  /** The sizes of the lookups the tests make. */
  lemma SpawnedIndexAmounts()
    ensures |EntitiesWith(SpawnedIndex(), 10)| == 2 && |EntitiesWith(SpawnedIndex(), 20)| == 1
    ensures |EntitiesWith(SpawnedIndex(), 30)| == 1 && |EntitiesWith(SpawnedIndex(), 40)| == 0
  {
    assert EntitiesWith(SpawnedIndex(), 10) == {1, 2};
    assert EntitiesWith(SpawnedIndex(), 20) == {3};
    assert EntitiesWith(SpawnedIndex(), 30) == {4};
    assert EntitiesWith(SpawnedIndex(), 40) == {};
  }

  lemma AddedFiveIndexAmounts()
    ensures |EntitiesWith(AddedFiveIndex(), 10)| == 0 && |EntitiesWith(AddedFiveIndex(), 20)| == 0
    ensures |EntitiesWith(AddedFiveIndex(), 30)| == 0 && |EntitiesWith(AddedFiveIndex(), 15)| == 2
    ensures |EntitiesWith(AddedFiveIndex(), 25)| == 1 && |EntitiesWith(AddedFiveIndex(), 35)| == 1
  {
    assert EntitiesWith(AddedFiveIndex(), 10) == {};
    assert EntitiesWith(AddedFiveIndex(), 20) == {};
    assert EntitiesWith(AddedFiveIndex(), 30) == {};
    assert EntitiesWith(AddedFiveIndex(), 15) == {1, 2};
    assert EntitiesWith(AddedFiveIndex(), 25) == {3};
    assert EntitiesWith(AddedFiveIndex(), 35) == {4};
  }

  lemma MovedTenIndexAmounts()
    ensures |EntitiesWith(MovedTenIndex(), 10)| == 0 && |EntitiesWith(MovedTenIndex(), 20)| == 3
  {
    assert EntitiesWith(MovedTenIndex(), 10) == {};
    assert EntitiesWith(MovedTenIndex(), 20) == {1, 2, 3};
  }

  /** `checker(number, _)`: a system at tick `now` that looks `number` up and
      reports how many entities it found. */
  method Checker(storage: IndexStorage<nat, int>, rows: seq<Row<int, nat>>, now: Tick, number: nat)
    returns (amount: nat)
    requires storage.Valid()
    modifies storage, storage.multimap
    ensures storage.Valid()
    ensures storage.State() == NumberRefreshed(old(storage.State()), rows, now)
    ensures amount == |EntitiesWith(storage.State().assoc, number)|
  {
    var index := new Index(storage, rows, now, NumberValue, WrappingAgeIsOlderThan);
    var found := index.Lookup(number);
    amount := |found|;
  }

  /** A run of `checker` systems, one per number, at consecutive ticks from
      `firstTick`, over a live view the watermark has already passed: each
      refresh only moves the watermark, and each lookup sees the same index. */
  method UpToDateCheckers(storage: IndexStorage<nat, int>, rows: seq<Row<int, nat>>, firstTick: Tick, numbers: seq<nat>)
    returns (amounts: seq<nat>)
    requires storage.Valid()
    requires 0 < storage.lastRefreshTick < firstTick && firstTick + |numbers| <= TICK_MODULUS
    requires forall i :: 0 <= i < |rows| ==> rows[i].lastChanged < storage.lastRefreshTick
    modifies storage, storage.multimap
    ensures storage.Valid()
    ensures storage.State().assoc == old(storage.State().assoc)
    ensures storage.lastRefreshTick == if numbers == [] then old(storage.lastRefreshTick) else firstTick + |numbers| - 1
    ensures |amounts| == |numbers|
    ensures forall i :: 0 <= i < |numbers| ==> amounts[i] == |EntitiesWith(storage.State().assoc, numbers[i])|
  {
    amounts := [];
    for i := 0 to |numbers|
      invariant storage.Valid()
      invariant storage.State().assoc == old(storage.State().assoc)
      invariant storage.lastRefreshTick == if i == 0 then old(storage.lastRefreshTick) else firstTick + i - 1
      invariant |amounts| == i
      invariant forall j :: 0 <= j < i ==> amounts[j] == |EntitiesWith(storage.State().assoc, numbers[j])|
    {
      SeenOnce(storage.State().assoc, rows, storage.lastRefreshTick, firstTick + i);
      var amount := Checker(storage, rows, firstTick + i, numbers[i]);
      amounts := amounts + [amount];
    }
  }

  /** The checkers that run after the startup system, at ticks 2, 3, ...: the
      first refresh indexes the spawned numbers. */
  method SpawnedCheckers(storage: IndexStorage<nat, int>, numbers: seq<nat>) returns (amounts: seq<nat>)
    requires storage.Valid() && storage.State() == DefaultState()
    requires 0 < |numbers| < 100
    modifies storage, storage.multimap
    ensures storage.Valid() && storage.State() == StorageState(SpawnedIndex(), 1 + |numbers|)
    ensures |amounts| == |numbers|
    ensures forall i :: 0 <= i < |numbers| ==> amounts[i] == |EntitiesWith(SpawnedIndex(), numbers[i])|
  {
    SpawnedAreIndexed();
    var first := Checker(storage, Spawned(), 2, numbers[0]);
    var rest := UpToDateCheckers(storage, Spawned(), 3, numbers[1..]);
    amounts := [first] + rest;
  }

  /** `test_index_lookup`: four checkers, at ticks 2 to 5, after the startup system. */
  method IndexLookupScenario() returns (amounts: seq<nat>)
    ensures amounts == [2, 1, 1, 0]
  {
    var storage := new IndexStorage<nat, int>();
    amounts := SpawnedCheckers(storage, [10, 20, 30, 40]);
    SpawnedIndexAmounts();
  }

  /** The PostUpdate checkers of `test_changing_values`, at ticks 6, 7, ...,
      after `adder_all(5)` ran at tick 5. */
  method AddedFiveCheckers(storage: IndexStorage<nat, int>, numbers: seq<nat>) returns (amounts: seq<nat>)
    requires storage.Valid()
    requires storage.State().assoc == SpawnedIndex() && 0 < storage.lastRefreshTick <= 5
    requires 0 < |numbers| < 100
    modifies storage, storage.multimap
    ensures storage.Valid() && storage.State() == StorageState(AddedFiveIndex(), 5 + |numbers|)
    ensures |amounts| == |numbers|
    ensures forall i :: 0 <= i < |numbers| ==> amounts[i] == |EntitiesWith(AddedFiveIndex(), numbers[i])|
  {
    AddedFiveAreReindexed(storage.lastRefreshTick, 6);
    var first := Checker(storage, AddedFive(), 6, numbers[0]);
    var rest := UpToDateCheckers(storage, AddedFive(), 7, numbers[1..]);
    amounts := [first] + rest;
  }

  /** `test_changing_values`: checkers at ticks 2 to 4 (PreUpdate), `adder_all(5)`
      at tick 5 (Update), checkers at ticks 6 to 11 (PostUpdate). */
  method ChangingValuesScenario() returns (amounts: seq<nat>)
    ensures amounts == [2, 1, 1, 0, 0, 0, 2, 1, 1]
  {
    var storage := new IndexStorage<nat, int>();
    var pre := SpawnedCheckers(storage, [10, 20, 30]);
    var post := AddedFiveCheckers(storage, [10, 20, 30, 15, 25, 35]);
    SpawnedIndexAmounts();
    AddedFiveIndexAmounts();
    amounts := pre + post;
  }

  /** `adder_some(10, 10)` at tick 4, after the watermark reached 3: look 10 up
      through the index (refreshing it to tick 4), then raise the numbers found
      by 10. Returns the live view afterwards. */
  method AdderSome(storage: IndexStorage<nat, int>) returns (rows: seq<Row<int, nat>>)
    requires storage.Valid() && storage.State() == StorageState(SpawnedIndex(), 3)
    modifies storage, storage.multimap
    ensures storage.Valid() && storage.State() == StorageState(SpawnedIndex(), 4)
    ensures rows == AddTo(Spawned(), {1, 2}, 10, 4)
  {
    SeenOnce(SpawnedIndex(), Spawned(), 3, 4);
    var index := new Index(storage, Spawned(), 4, NumberValue, WrappingAgeIsOlderThan);
    var found := index.Lookup(10);
    assert found == {1, 2};
    rows := AddTo(Spawned(), found, 10, 4);
  }

  /** The PostUpdate checkers of `test_changing_with_index`, at ticks 5, 6, ... */
  method MovedTenCheckers(storage: IndexStorage<nat, int>, rows: seq<Row<int, nat>>, numbers: seq<nat>)
    returns (amounts: seq<nat>)
    requires storage.Valid() && storage.State() == StorageState(SpawnedIndex(), 4)
    requires rows == AddTo(Spawned(), {1, 2}, 10, 4)
    requires 0 < |numbers| < 100
    modifies storage, storage.multimap
    ensures storage.Valid() && storage.State() == StorageState(MovedTenIndex(), 4 + |numbers|)
    ensures |amounts| == |numbers|
    ensures forall i :: 0 <= i < |numbers| ==> amounts[i] == |EntitiesWith(MovedTenIndex(), numbers[i])|
  {
    MovedTenAreReindexed();
    var first := Checker(storage, rows, 5, numbers[0]);
    assert rows == [Row(1, 20, 4), Row(2, 20, 4), Row(3, 20, 1), Row(4, 30, 1)];
    var rest := UpToDateCheckers(storage, rows, 6, numbers[1..]);
    amounts := [first] + rest;
  }

  /** `test_changing_with_index`: checkers at ticks 2 and 3 (PreUpdate);
      `adder_some(10, 10)` at tick 4 (Update); checkers at ticks 5 and 6
      (PostUpdate). The change made in the same step as the adder's own lookup
      is still seen by the index. */
  method ChangingWithIndexScenario() returns (amounts: seq<nat>)
    ensures amounts == [2, 1, 0, 3]
  {
    var storage := new IndexStorage<nat, int>();
    var pre := SpawnedCheckers(storage, [10, 20]);
    var rows := AdderSome(storage);
    var post := MovedTenCheckers(storage, rows, [10, 20]);
    SpawnedIndexAmounts();
    MovedTenIndexAmounts();
    amounts := pre + post;
  }
}
