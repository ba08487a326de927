/**
 The incremental secondary index of `src/index.rs`: an `IndexStorage` holding a
 unique multimap and the watermark `last_refresh_tick`, and an `Index` handle
 that refreshes the storage from the live components and answers lookups.

 The pure part states what a refresh computes on the abstract value of the
 storage (each entity's value, and the watermark); the classes carry out the
 source's in-place updates and are proved against it.
 */
module SecondaryIndex {
  import opened Ticks
  import opened UniqueMultiMaps

  /** One item of the live component query: an entity, its component, and the
      tick of the component's last change. */
  datatype Row<E, C> = Row(entity: E, component: C, lastChanged: Tick)

  /** The abstract value of an `IndexStorage`: the value each indexed entity sits
      under (at most one, by construction), and the watermark. */
  datatype StorageState<K, E> = StorageState(assoc: map<E, K>, lastRefreshTick: Tick)

  /** One call of `refresh`: the live view it reads and its current tick. */
  datatype RefreshCall<E, C> = RefreshCall(rows: seq<Row<E, C>>, now: Tick)

  /** `IndexStorage::default()`: no entity is indexed, so every lookup is
      empty, and the watermark is 0. */
  function DefaultState<K(==, !new), E>(): (s: StorageState<K, E>)
    ensures forall v :: EntitiesWith(s.assoc, v) == {}
    ensures s.lastRefreshTick == 0
  {
    StorageState(map[], 0)
  }

  /** A query yields each entity once. */
  predicate DistinctEntities<E(==), C>(rows: seq<Row<E, C>>)
  {
    forall i, j :: 0 <= i < j < |rows| ==> rows[i].entity != rows[j].entity
  }

  /** Whether a refresh from `watermark` at tick `now` re-inserts this row. */
  predicate PassesChangeTest<E, C>(row: Row<E, C>, watermark: Tick, now: Tick, isOlderThan: ChangeTest)
  {
    isOlderThan(Since(watermark), row.lastChanged, now)
  }

  /** The entities under value `v`. */
  function EntitiesWith<K(==), E>(assoc: map<E, K>, v: K): set<E>
  {
    set e | e in assoc && assoc[e] == v
  }

  /** The association after the refresh loop has visited `rows` in order:
      every row passing the change test moves its entity under the value of
      its component. Nothing is ever removed, and only entities of the live
      view are added. */
  function Reindexed<E, C, K>(assoc: map<E, K>, rows: seq<Row<E, C>>, watermark: Tick, now: Tick,
                              value: C -> K, isOlderThan: ChangeTest): (r: map<E, K>)
    ensures assoc.Keys <= r.Keys
    ensures forall e :: e in r && e !in assoc ==> exists i :: 0 <= i < |rows| && rows[i].entity == e
    decreases |rows|
  {
    if rows == [] then assoc
    else
      var last := rows[|rows| - 1];
      var prior := Reindexed(assoc, rows[..|rows| - 1], watermark, now, value, isOlderThan);
      if PassesChangeTest(last, watermark, now, isOlderThan) then prior[last.entity := value(last.component)]
      else prior
  }

  /** `Index::refresh` on the abstract value: a no-op when the watermark is
      already at or past `now`; otherwise the re-insertion pass, after which the
      watermark is `now`. Either way the watermark ends as the larger of the
      two ticks. */
  function Refreshed<E, C, K>(s: StorageState<K, E>, rows: seq<Row<E, C>>, now: Tick,
                              value: C -> K, isOlderThan: ChangeTest): (r: StorageState<K, E>)
    ensures r.lastRefreshTick >= s.lastRefreshTick && r.lastRefreshTick >= now
    ensures r.lastRefreshTick == s.lastRefreshTick || r.lastRefreshTick == now
    ensures s.assoc.Keys <= r.assoc.Keys
  {
    if s.lastRefreshTick >= now then s
    else StorageState(Reindexed(s.assoc, rows, s.lastRefreshTick, now, value, isOlderThan), now)
  }

  /** The storage after a sequence of refresh calls, in order. */
  function RefreshedThrough<E, C, K>(s: StorageState<K, E>, calls: seq<RefreshCall<E, C>>,
                                     value: C -> K, isOlderThan: ChangeTest): StorageState<K, E>
    decreases |calls|
  {
    if calls == [] then s
    else
      var last := calls[|calls| - 1];
      Refreshed(RefreshedThrough(s, calls[..|calls| - 1], value, isOlderThan), last.rows, last.now, value, isOlderThan)
  }

  // ---------------------------------------------------------------------------
  // Properties of a refresh

  /** An up-to-date storage is left exactly as it is, whatever the live view. */
  lemma RefreshUpToDateIsNoOp<E, C, K>(s: StorageState<K, E>, rows: seq<Row<E, C>>, now: Tick,
                                       value: C -> K, isOlderThan: ChangeTest)
    requires s.lastRefreshTick >= now
    ensures Refreshed(s, rows, now, value, isOlderThan) == s
  {
  }

  /** Refreshing twice at the same tick is refreshing once; the second call
      does not even look at its live view. */
  lemma RefreshIdempotent<E, C, K>(s: StorageState<K, E>, rows: seq<Row<E, C>>, rows': seq<Row<E, C>>,
                                   now: Tick, value: C -> K, isOlderThan: ChangeTest)
    ensures var once := Refreshed(s, rows, now, value, isOlderThan);
            Refreshed(once, rows', now, value, isOlderThan) == once
  {
  }

  /** A row that passes the change test leaves its entity under the value of
      its component (entities in the live view are distinct). */
  lemma {:induction false} ReindexedChangedRow<E, C, K>(assoc: map<E, K>, rows: seq<Row<E, C>>, watermark: Tick,
                                                        now: Tick, value: C -> K, isOlderThan: ChangeTest, i: int)
    requires DistinctEntities(rows)
    requires 0 <= i < |rows| && PassesChangeTest(rows[i], watermark, now, isOlderThan)
    ensures var r := Reindexed(assoc, rows, watermark, now, value, isOlderThan);
            rows[i].entity in r && r[rows[i].entity] == value(rows[i].component)
  {
    if i < |rows| - 1 {
      var prefix := rows[..|rows| - 1];
      assert prefix[i] == rows[i];
      ReindexedChangedRow(assoc, prefix, watermark, now, value, isOlderThan, i);
      assert rows[|rows| - 1].entity != rows[i].entity;
    }
  }

  /** An entity none of whose rows passes the change test keeps exactly its
      previous association, or its absence. */
  lemma {:induction false} ReindexedUnchangedEntity<E, C, K>(assoc: map<E, K>, rows: seq<Row<E, C>>, watermark: Tick,
                                                             now: Tick, value: C -> K, isOlderThan: ChangeTest, e: E)
    requires forall i :: 0 <= i < |rows| && rows[i].entity == e ==> !PassesChangeTest(rows[i], watermark, now, isOlderThan)
    ensures var r := Reindexed(assoc, rows, watermark, now, value, isOlderThan);
            (e in r <==> e in assoc) && (e in assoc ==> r[e] == assoc[e])
  {
    if rows != [] {
      var prefix := rows[..|rows| - 1];
      forall i | 0 <= i < |prefix| && prefix[i].entity == e
        ensures !PassesChangeTest(prefix[i], watermark, now, isOlderThan)
      {
        assert prefix[i] == rows[i];
      }
      ReindexedUnchangedEntity(assoc, prefix, watermark, now, value, isOlderThan, e);
    }
  }

  /** A pass in which no row passes the change test changes nothing. */
  lemma {:induction false} ReindexedNothingChanged<E, C, K>(assoc: map<E, K>, rows: seq<Row<E, C>>, watermark: Tick,
                                                            now: Tick, value: C -> K, isOlderThan: ChangeTest)
    requires forall i :: 0 <= i < |rows| ==> !PassesChangeTest(rows[i], watermark, now, isOlderThan)
    ensures Reindexed(assoc, rows, watermark, now, value, isOlderThan) == assoc
  {
    if rows != [] {
      var prefix := rows[..|rows| - 1];
      forall i | 0 <= i < |prefix| ensures !PassesChangeTest(prefix[i], watermark, now, isOlderThan) {
        assert prefix[i] == rows[i];
      }
      ReindexedNothingChanged(assoc, prefix, watermark, now, value, isOlderThan);
    }
  }

  /** Lookup completeness and soundness for a re-inserted entity: after a
      refresh that runs the pass, the entity of a row passing the change test
      is found under the value of its component and under no other value. */
  lemma LookupOfChangedEntity<E, C, K>(s: StorageState<K, E>, rows: seq<Row<E, C>>, now: Tick,
                                       value: C -> K, isOlderThan: ChangeTest, i: int, v: K)
    requires DistinctEntities(rows) && s.lastRefreshTick < now
    requires 0 <= i < |rows| && PassesChangeTest(rows[i], s.lastRefreshTick, now, isOlderThan)
    ensures rows[i].entity in EntitiesWith(Refreshed(s, rows, now, value, isOlderThan).assoc, v)
            <==> v == value(rows[i].component)
  {
    ReindexedChangedRow(s.assoc, rows, s.lastRefreshTick, now, value, isOlderThan, i);
  }

  /** Lookup for an entity the pass does not re-insert: it is found under
      exactly the values it was found under before the refresh. */
  lemma LookupOfUnchangedEntity<E, C, K>(s: StorageState<K, E>, rows: seq<Row<E, C>>, now: Tick,
                                         value: C -> K, isOlderThan: ChangeTest, e: E, v: K)
    requires forall i :: 0 <= i < |rows| && rows[i].entity == e ==> !PassesChangeTest(rows[i], s.lastRefreshTick, now, isOlderThan)
    ensures e in EntitiesWith(Refreshed(s, rows, now, value, isOlderThan).assoc, v) <==> e in EntitiesWith(s.assoc, v)
  {
    if s.lastRefreshTick < now {
      ReindexedUnchangedEntity(s.assoc, rows, s.lastRefreshTick, now, value, isOlderThan, e);
    }
  }

  /** A refresh that runs the pass keeps the index accurate: when every live
      entity whose row fails the change test is already indexed under the
      value of its component, afterwards every live entity is, so a lookup of
      `v` finds a live entity exactly when its component yields `v`. */
  lemma RefreshKeepsIndexAccurate<E, C, K>(s: StorageState<K, E>, rows: seq<Row<E, C>>, now: Tick,
                                           value: C -> K, isOlderThan: ChangeTest)
    requires DistinctEntities(rows) && s.lastRefreshTick < now
    requires forall i :: 0 <= i < |rows| && !PassesChangeTest(rows[i], s.lastRefreshTick, now, isOlderThan) ==>
               rows[i].entity in s.assoc && s.assoc[rows[i].entity] == value(rows[i].component)
    ensures var r := Refreshed(s, rows, now, value, isOlderThan).assoc;
            forall i :: 0 <= i < |rows| ==> rows[i].entity in r && r[rows[i].entity] == value(rows[i].component)
    ensures var r := Refreshed(s, rows, now, value, isOlderThan).assoc;
            forall i, v :: 0 <= i < |rows| ==> (rows[i].entity in EntitiesWith(r, v) <==> v == value(rows[i].component))
  {
    forall i | 0 <= i < |rows|
      ensures var r := Refreshed(s, rows, now, value, isOlderThan).assoc;
              rows[i].entity in r && r[rows[i].entity] == value(rows[i].component)
    {
      if PassesChangeTest(rows[i], s.lastRefreshTick, now, isOlderThan) {
        ReindexedChangedRow(s.assoc, rows, s.lastRefreshTick, now, value, isOlderThan, i);
      } else {
        forall j | 0 <= j < |rows| && rows[j].entity == rows[i].entity
          ensures !PassesChangeTest(rows[j], s.lastRefreshTick, now, isOlderThan)
        {
          assert j == i;
        }
        ReindexedUnchangedEntity(s.assoc, rows, s.lastRefreshTick, now, value, isOlderThan, rows[i].entity);
      }
    }
  }

  /** A value that no entity had before and that no live component yields is
      looked up as the empty set, not an error. */
  lemma LookupOfUnknownValue<E, C, K>(s: StorageState<K, E>, rows: seq<Row<E, C>>, now: Tick,
                                      value: C -> K, isOlderThan: ChangeTest, v: K)
    requires v !in s.assoc.Values
    requires forall i :: 0 <= i < |rows| ==> value(rows[i].component) != v
    ensures EntitiesWith(Refreshed(s, rows, now, value, isOlderThan).assoc, v) == {}
  {
    if s.lastRefreshTick < now {
      ReindexedAvoidsValue(s.assoc, rows, s.lastRefreshTick, now, value, isOlderThan, v);
    }
  }

  lemma {:induction false} ReindexedAvoidsValue<E, C, K>(assoc: map<E, K>, rows: seq<Row<E, C>>, watermark: Tick,
                                                         now: Tick, value: C -> K, isOlderThan: ChangeTest, v: K)
    requires v !in assoc.Values
    requires forall i :: 0 <= i < |rows| ==> value(rows[i].component) != v
    ensures v !in Reindexed(assoc, rows, watermark, now, value, isOlderThan).Values
  {
    if rows != [] {
      var prefix := rows[..|rows| - 1];
      forall i | 0 <= i < |prefix| ensures value(prefix[i].component) != v {
        assert prefix[i] == rows[i];
      }
      ReindexedAvoidsValue(assoc, prefix, watermark, now, value, isOlderThan, v);
    }
  }

  /** After any sequence of refresh calls the watermark is the largest tick
      seen: the initial watermark or one of the calls' ticks, and at least all
      of them. */
  lemma {:induction false} WatermarkIsMaximum<E, C, K>(s: StorageState<K, E>, calls: seq<RefreshCall<E, C>>,
                                                       value: C -> K, isOlderThan: ChangeTest)
    ensures var w := RefreshedThrough(s, calls, value, isOlderThan).lastRefreshTick;
            && w >= s.lastRefreshTick
            && (forall j :: 0 <= j < |calls| ==> w >= calls[j].now)
            && (w == s.lastRefreshTick || exists j :: 0 <= j < |calls| && w == calls[j].now)
  {
    if calls != [] {
      var prefix := calls[..|calls| - 1];
      WatermarkIsMaximum(s, prefix, value, isOlderThan);
      var w0 := RefreshedThrough(s, prefix, value, isOlderThan).lastRefreshTick;
      var w := RefreshedThrough(s, calls, value, isOlderThan).lastRefreshTick;
      forall j | 0 <= j < |calls| ensures w >= calls[j].now {
        if j < |prefix| { assert prefix[j] == calls[j]; }
      }
      if w != s.lastRefreshTick {
        if w == w0 {
          var j :| 0 <= j < |prefix| && w0 == prefix[j].now;
          assert calls[j] == prefix[j];
        } else {
          assert w == calls[|calls| - 1].now;
        }
      }
    }
  }

  // ---------------------------------------------------------------------------
  // The storage and the index handle

  /** `IndexStorage`: the multimap and the watermark, updated in place. */
  class IndexStorage<K(==, !new), E(==)> {
    const multimap: UniqueMultiMap<K, E>
    var lastRefreshTick: Tick

    ghost predicate Valid()
      reads this, multimap
    {
      multimap.Valid()
    }

    ghost function State(): StorageState<K, E>
      reads this, multimap
    {
      StorageState(multimap.reverse, lastRefreshTick)
    }

    /** `IndexStorage::default()`: an empty multimap and watermark 0. */
    constructor ()
      ensures Valid() && fresh(multimap)
      ensures State() == DefaultState()
    {
      multimap := new UniqueMultiMap();
      lastRefreshTick := 0;
    }
  }

  /** `Index`: a handle on the storage, the live component view, the current
      tick, the index's extraction function `IndexInfo::value` and the host's
      change test. */
  class Index<E(==), C, K(==, !new)> {
    const storage: IndexStorage<K, E>
    const components: seq<Row<E, C>>
    const currentTick: Tick
    const value: C -> K
    const isOlderThan: ChangeTest

    constructor (storage: IndexStorage<K, E>, components: seq<Row<E, C>>, currentTick: Tick,
                 value: C -> K, isOlderThan: ChangeTest)
      ensures this.storage == storage && this.components == components && this.currentTick == currentTick
      ensures this.value == value && this.isOlderThan == isOlderThan
    {
      this.storage := storage;
      this.components := components;
      this.currentTick := currentTick;
      this.value := value;
      this.isOlderThan := isOlderThan;
    }

    /** `Index::refresh`: re-insert every entity whose component passes the
        change test, then move the watermark to the current tick; nothing at
        all when the watermark is already there. */
    method Refresh()
      requires storage.Valid()
      modifies storage, storage.multimap
      ensures storage.Valid()
      ensures storage.State() == Refreshed(old(storage.State()), components, currentTick, value, isOlderThan)
    {
      if storage.lastRefreshTick >= currentTick {
        return;
      }
      ghost var assoc0 := storage.multimap.reverse;
      for i := 0 to |components|
        invariant storage.Valid()
        invariant storage.lastRefreshTick == old(storage.lastRefreshTick)
        invariant storage.multimap.reverse
                  == Reindexed(assoc0, components[..i], storage.lastRefreshTick, currentTick, value, isOlderThan)
      {
        var row := components[i];
        assert components[..i + 1][..i] == components[..i];
        if isOlderThan(Since(storage.lastRefreshTick), row.lastChanged, currentTick) {
          storage.multimap.Insert(value(row.component), row.entity);
        }
      }
      assert components[..|components|] == components;
      storage.lastRefreshTick := currentTick;
    }

    /** `Index::lookup`: refresh, then the entities under `val` in the
        refreshed multimap (possibly none). */
    method Lookup(val: K) returns (found: set<E>)
      requires storage.Valid()
      modifies storage, storage.multimap
      ensures storage.Valid()
      ensures storage.State() == Refreshed(old(storage.State()), components, currentTick, value, isOlderThan)
      ensures found == EntitiesWith(storage.State().assoc, val)
    {
      Refresh();
      found := storage.multimap.Get(val);
    }
  }
}
