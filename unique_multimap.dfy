/**
 The unique multimap behind an index: value -> set of entities, where every
 entity sits under at most one value. The forward map answers `get`; the
 reverse map (entity -> value) is what lets `insert` drop an entity's previous
 association.
 */
module UniqueMultiMaps {

  class UniqueMultiMap<K(==, !new), E(==)> {
    var forward: map<K, set<E>>
    var reverse: map<E, K>

    /** The two maps describe the same association. */
    ghost predicate Valid()
      reads this
    {
      && (forall k, e :: k in forward && e in forward[k] ==> e in reverse && reverse[e] == k)
      && (forall e :: e in reverse ==> reverse[e] in forward && e in forward[reverse[e]])
    }

    constructor ()
      ensures Valid()
      ensures forward == map[] && reverse == map[]
    {
      forward := map[];
      reverse := map[];
    }

    /** The entities under `k`; the empty set when there are none. */
    function Get(k: K): (found: set<E>)
      reads this
      requires Valid()
      ensures forall e :: e in found ==> e in reverse && reverse[e] == k
      ensures forall e :: e in reverse && reverse[e] == k ==> e in found
    {
      if k in forward then forward[k] else {}
    }

    /** Associates `e` with `k`, first dropping any previous association of `e`. */
    method Insert(k: K, e: E)
      requires Valid()
      modifies this
      ensures Valid()
      ensures reverse == old(reverse)[e := k]
      ensures forall k' :: Get(k') == if k' == k then old(Get(k')) + {e} else old(Get(k')) - {e}
    {
      if e in reverse {
        var previous := reverse[e];
        forward := forward[previous := forward[previous] - {e}];
      }
      var members := if k in forward then forward[k] else {};
      forward := forward[k := members + {e}];
      reverse := reverse[e := k];
    }

    /** No entity is found under two different values. */
    lemma EntityUnderOneValue(k1: K, k2: K, e: E)
      requires Valid()
      requires e in Get(k1) && e in Get(k2)
      ensures k1 == k2
    {
    }
  }
}
