/** A map whose values are sets and that never keeps an empty one (src/utils/mapSet.ts). */
module MapOfSets {
  import opened Wrappers

  function Added<K, V>(m: map<K, set<V>>, key: K, item: V): map<K, set<V>> {
    m[key := (if key in m then m[key] else {}) + {item}]
  }

  /** None when there is no set for the key: the source throws. */
  function Deleted<K, V>(m: map<K, set<V>>, key: K, item: V): Option<map<K, set<V>>> {
    if key !in m then None
    else if |m[key] - {item}| == 0 then Some(m - {key})
    else Some(m[key := m[key] - {item}])
  }

  ghost predicate NoEmptySets<K, V>(m: map<K, set<V>>) {
    forall key :: key in m ==> m[key] != {}
  }

  ghost predicate Holds<K, V>(m: map<K, set<V>>, key: K, item: V) {
    key in m && item in m[key]
  }

  /** Adding and deleting change one membership and nothing else, and leave no empty set. */
  lemma MembershipAfter<K, V>(m: map<K, set<V>>, key: K, item: V)
    requires NoEmptySets(m)
    ensures NoEmptySets(Added(m, key, item))
    ensures forall k, v :: Holds(Added(m, key, item), k, v) <==> (k == key && v == item) || Holds(m, k, v)
    ensures Deleted(m, key, item).Some? <==> key in m
    ensures Deleted(m, key, item).Some? ==> NoEmptySets(Deleted(m, key, item).value)
    ensures Deleted(m, key, item).Some? ==> forall k, v ::
      Holds(Deleted(m, key, item).value, k, v) <==> !(k == key && v == item) && Holds(m, k, v)
  {
    if key in m && |m[key] - {item}| == 0 {
      assert m[key] - {item} == {};
    }
  }

  /** Deleting what was just added, and was not there before, gives back the original map. */
  lemma AddThenDelete<K, V>(m: map<K, set<V>>, key: K, item: V)
    requires NoEmptySets(m) && !Holds(m, key, item)
    ensures Deleted(Added(m, key, item), key, item) == Some(m)
  {
    var added := Added(m, key, item);
    if key in m {
      assert added[key] - {item} == m[key];
      assert added[key := m[key]] == m;
    } else {
      assert added[key] - {item} == {};
      assert added - {key} == m;
    }
  }

  class SetMap<K(==), V(==)> {
    var sets: map<K, set<V>>

    constructor ()
      ensures sets == map[]
    {
      sets := map[];
    }

    method AddToSet(key: K, item: V)
      modifies this
      ensures sets == Added(old(sets), key, item)
    {
      if key !in sets {
        ghost var none: set<V> := {};
        assert none + {item} == {item};
        sets := sets[key := {item}];
      } else {
        sets := sets[key := sets[key] + {item}];
      }
    }

    /** `result` tells whether the item was in the set; `fault` that there is no set for the key. */
    method DeleteFromSet(key: K, item: V) returns (fault: bool, result: bool)
      modifies this
      ensures fault <==> Deleted(old(sets), key, item).None?
      ensures sets == if fault then old(sets) else Deleted(old(sets), key, item).value
      ensures !fault ==> (result <==> item in old(sets)[key])
    {
      if key !in sets {
        return true, false;
      }
      fault, result := false, item in sets[key];
      var remaining := sets[key] - {item};
      sets := sets[key := remaining];
      if |remaining| == 0 {
        sets := sets - {key};
      }
    }
  }
}
