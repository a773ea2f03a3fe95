/** gps/utils/LocUnorderedSetMap.h: a map from keys to sets of values, updated in place. */
module SetMap {

  function ValSet<K, V>(m: map<K, set<V>>, k: K): set<V> {
    if k in m then m[k] else {}
  }

  /** The entries of `keys` lose `vals`; those left empty go. */
  function Trimmed<K, V>(m: map<K, set<V>>, keys: set<K>, vals: set<V>): map<K, set<V>> {
    map k | k in m && !(k in keys && m[k] <= vals) :: if k in keys then m[k] - vals else m[k]
  }

  function GoneKeys<K, V>(m: map<K, set<V>>, keys: set<K>, vals: set<V>): set<K> {
    set k | k in keys && k in m && m[k] <= vals
  }

  function GoneVals<K, V>(m: map<K, set<V>>, keys: set<K>, vals: set<V>): set<V> {
    set v | v in vals && exists k :: k in keys && k in m && v in m[k]
  }

  /** The entries of `keys` gain `vals`; missing entries appear. */
  function Added<K, V>(m: map<K, set<V>>, keys: set<K>, vals: set<V>): map<K, set<V>> {
    if vals == {} then m
    else map k | k in m.Keys + keys :: if k in keys then ValSet(m, k) + vals else m[k]
  }

  lemma EmptyDifference<T>(s: set<T>, t: set<T>)
    ensures s - t == {} <==> s <= t
  {
    assert forall x :: x in s && x !in t ==> x in s - t;
  }

  lemma Pick<T>(s: set<T>) returns (x: T)
    requires s != {}
    ensures x in s
  {
    x :| x in s;
  }

  class LocUnorderedSetMap<K(==), V(==)> {
    var m: map<K, set<V>>

    constructor ()
      ensures m == map[]
    {
      m := map[];
    }

    method GetKeys() returns (keys: set<K>)
      ensures keys == m.Keys
    {
      keys := m.Keys;
    }

    method Remove(key: K) returns (removed: bool)
      modifies this
      ensures m == old(m) - {key} && (removed <==> key in old(m))
    {
      removed := key in m;
      m := m - {key};
    }

    /** The values of one entry that are also in vals are erased one by one. */
    static method TrimSet(from: set<V>, vals: set<V>, gone0: set<V>) returns (left: set<V>, gone: set<V>)
      ensures left == from - vals && gone == gone0 + from * vals
    {
      left, gone := from, gone0;
      var rest := vals;
      while rest != {}
        invariant rest <= vals
        invariant left == from - (vals - rest)
        invariant gone == gone0 + from * (vals - rest)
        decreases rest
      {
        var v :| v in rest;
        if v in left {
          left := left - {v};
          gone := gone + {v};
        }
        rest := rest - {v};
      }
    }

    method TrimOrRemove(keys: set<K>, vals: set<V>) returns (goneKeys: set<K>, goneVals: set<V>)
      modifies this
      ensures m == Trimmed(old(m), keys, vals)
      ensures goneKeys == GoneKeys(old(m), keys, vals)
      ensures goneVals == GoneVals(old(m), keys, vals)
    {
      goneKeys, goneVals := {}, {};
      var rest := keys;
      while rest != {}
        invariant rest <= keys
        invariant m == Trimmed(old(m), keys - rest, vals)
        invariant goneKeys == GoneKeys(old(m), keys - rest, vals)
        invariant goneVals == GoneVals(old(m), keys - rest, vals)
        decreases rest
      {
        var k :| k in rest;
        assert k in m <==> k in old(m);
        assert keys - (rest - {k}) == (keys - rest) + {k};
        if k in m {
          assert m[k] == old(m)[k];
          var left;
          left, goneVals := TrimSet(m[k], vals, goneVals);
          EmptyDifference(old(m)[k], vals);
          if left == {} {
            m := m - {k};
            goneKeys := goneKeys + {k};
          } else {
            m := m[k := left];
          }
        }
        rest := rest - {k};
      }
      assert keys - rest == keys;
    }

    method Add(key: K, vals: set<V>) returns (newEntry: bool)
      modifies this
      ensures m == Added(old(m), {key}, vals)
      ensures newEntry <==> key !in old(m) && vals != {}
    {
      newEntry := false;
      if vals != {} {
        newEntry := key !in m;
        m := m[key := ValSet(m, key) + vals];
      }
    }

    method AddToAll(keys: set<K>, vals: set<V>) returns (newKeys: set<K>)
      modifies this
      ensures m == Added(old(m), keys, vals)
      ensures newKeys == m.Keys - old(m).Keys
    {
      newKeys := {};
      var rest := keys;
      while rest != {}
        invariant rest <= keys
        invariant m == Added(old(m), keys - rest, vals)
        invariant newKeys == m.Keys - old(m).Keys
        decreases rest
      {
        var k :| k in rest;
        var isNew := Add(k, vals);
        if isNew {
          newKeys := newKeys + {k};
        }
        rest := rest - {k};
      }
      assert keys - rest == keys;
    }

    /** removeAndReturnInterset, run to the end of the second set. */
    static method RemoveIntersection(s1: set<V>, s2: set<V>)
      returns (common: set<V>, left1: set<V>, left2: set<V>)
      ensures common == s1 * s2 && left1 == s1 - s2 && left2 == s2 - s1
    {
      common, left1, left2 := {}, s1, s2;
      var rest := s2;
      while rest != {}
        invariant rest <= s2
        invariant common == s1 * (s2 - rest)
        invariant left1 == s1 - (s2 - rest)
        invariant left2 == s2 - s1 * (s2 - rest)
        decreases rest
      {
        var v :| v in rest;
        if v in left1 {
          common := common + {v};
          left1 := left1 - {v};
          left2 := left2 - {v};
        }
        rest := rest - {v};
      }
    }

    /** `returned` holds the values the entry had before and keeps, not those it loses;
      * `left` is what the call leaves in its argument. */
    method Update(key: K, newVals: set<V>) returns (returned: set<V>, left: set<V>)
      modifies this
      ensures m == if newVals == {} then old(m) - {key} else old(m)[key := newVals]
      ensures returned == ValSet(old(m), key) * newVals
      ensures left == newVals - ValSet(old(m), key)
    {
      returned, left := {}, newVals;
      if newVals == {} {
        m := m - {key};
      } else {
        var curVals := ValSet(m, key);
        m := m[key := newVals];
        var cur;
        returned, cur, left := RemoveIntersection(curVals, newVals);
      }
    }
  }
}
