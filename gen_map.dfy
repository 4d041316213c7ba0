/**
 * GenMap (gen_map.go): a typed wrapper around a concurrent map. Here the
 * map is a plain `map` field, used sequentially.
 */
module GenMaps {

  /** What Load reports for a key: its value and true, or the zero value and false. */
  function LoadResult<K, V>(m: map<K, V>, zero: V, key: K): (V, bool)
  {
    if key in m then (m[key], true) else (zero, false)
  }

  /** The keys of a sequence of pairs. */
  function KeysOf<K, V>(pairs: seq<(K, V)>): set<K>
  {
    set i | 0 <= i < |pairs| :: pairs[i].0
  }

  lemma KeysOfAppend<K, V>(pairs: seq<(K, V)>, p: (K, V))
    ensures KeysOf(pairs + [p]) == KeysOf(pairs) + {p.0}
  {
    var ext := pairs + [p];
    assert ext[|pairs|] == p;
    forall k | k in KeysOf(ext) ensures k in KeysOf(pairs) + {p.0} {
      var i :| 0 <= i < |ext| && ext[i].0 == k;
      if i < |pairs| { assert pairs[i] == ext[i]; }
    }
    forall k | k in KeysOf(pairs) ensures k in KeysOf(ext) {
      var i :| 0 <= i < |pairs| && pairs[i].0 == k;
      assert ext[i] == pairs[i];
    }
  }

  /**
   * Range's progress: the pairs visited so far are stored pairs with
   * distinct keys, and the keys not yet visited are `remaining`.
   */
  ghost predicate Visits<K, V>(m: map<K, V>, visited: seq<(K, V)>, remaining: set<K>)
  {
    && remaining <= m.Keys
    && KeysOf(visited) == m.Keys - remaining
    && (forall i :: 0 <= i < |visited| ==> visited[i].0 in m && m[visited[i].0] == visited[i].1)
    && (forall i, j :: 0 <= i < j < |visited| ==> visited[i].0 != visited[j].0)
  }

  lemma VisitStep<K, V>(m: map<K, V>, visited: seq<(K, V)>, remaining: set<K>, key: K)
    requires Visits(m, visited, remaining) && key in remaining
    ensures Visits(m, visited + [(key, m[key])], remaining - {key})
  {
    KeysOfAppend(visited, (key, m[key]));
    forall i | 0 <= i < |visited| ensures visited[i].0 != key {
      assert visited[i].0 in KeysOf(visited);
    }
  }

  class GenMap<K(==), V> {
    var m: map<K, V>
    /** Go's zero value of V, which Load returns for a missing key. */
    const zero: V

    /** An empty map; Go's zero GenMap. */
    constructor (zero: V)
      ensures m == map[] && this.zero == zero
    {
      m := map[];
      this.zero := zero;
    }

    method Store(key: K, value: V)
      modifies this
      ensures m == old(m)[key := value]
    {
      m := m[key := value];
    }

    method Load(key: K) returns (value: V, ok: bool)
      ensures ok <==> key in m
      ensures (value, ok) == LoadResult(m, zero, key)
    {
      if key in m {
        return m[key], true;
      }
      return zero, false;
    }

    /**
     * Calls f on the stored pairs, one key at a time in no particular order,
     * and stops after the first call that returns false. `visited` lists the
     * pairs f was called with, in call order.
     */
    method Range(f: (K, V) -> bool) returns (visited: seq<(K, V)>)
      ensures forall i :: 0 <= i < |visited| ==> visited[i].0 in m && m[visited[i].0] == visited[i].1
      ensures forall i, j :: 0 <= i < j < |visited| ==> visited[i].0 != visited[j].0
      ensures forall i :: 0 <= i < |visited| - 1 ==> f(visited[i].0, visited[i].1)
      ensures (forall i :: 0 <= i < |visited| ==> f(visited[i].0, visited[i].1)) ==> KeysOf(visited) == m.Keys
    {
      var remaining := m.Keys;
      visited := [];
      while remaining != {}
        invariant Visits(m, visited, remaining)
        invariant forall i :: 0 <= i < |visited| ==> f(visited[i].0, visited[i].1)
        decreases |remaining|
      {
        assert (forall k :: k !in remaining) ==> remaining == {};
        var key :| key in remaining;
        VisitStep(m, visited, remaining, key);
        visited := visited + [(key, m[key])];
        remaining := remaining - {key};
        if !f(key, m[key]) {
          assert !f(visited[|visited| - 1].0, visited[|visited| - 1].1);
          break;
        }
      }
    }
  }

  /** After Store(k, v), Load(k) reports (v, true). */
  lemma LoadAfterStore<K, V>(m: map<K, V>, zero: V, key: K, value: V)
    ensures LoadResult(m[key := value], zero, key) == (value, true)
  {
  }

  /** Store(k, v) leaves what Load reports for every other key as it was. */
  lemma LoadOtherAfterStore<K, V>(m: map<K, V>, zero: V, key: K, value: V, other: K)
    requires other != key
    ensures LoadResult(m[key := value], zero, other) == LoadResult(m, zero, other)
  {
  }

  /** A key never stored is reported as (zero, false). */
  lemma LoadMissing<K, V>(m: map<K, V>, zero: V, key: K)
    requires key !in m
    ensures LoadResult(m, zero, key) == (zero, false)
  {
  }

  /** A second Store to the same key replaces the first value. */
  lemma StoreOverwrites<K, V>(m: map<K, V>, key: K, first: V, second: V)
    ensures m[key := first][key := second] == m[key := second]
  {
  }
}
