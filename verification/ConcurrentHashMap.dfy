/** The locked map. Each method body between lock and unlock is one atomic region; the entries
    are heap objects, so a pointer into one outlives the lock. */
module ConcurrentHashMap {

  class Entry<K, V> {
    const key: K
    var value: V

    constructor (k: K, v: V)
      ensures key == k && value == v
    {
      key, value := k, v;
    }

    method SetValue(v: V)
      modifies this
      ensures value == v
    {
      value := v;
    }
  }

  class ConcurrentHashMap<K(==), V> {
    var backend: map<K, Entry<K, V>>

    /** Every entry sits under its own key. */
    ghost predicate Valid()
      reads this
    {
      forall k | k in backend :: backend[k].key == k
    }

    /** The map from keys to values that callers see. */
    ghost function Contents(): map<K, V>
      reads this, backend.Values
    {
      map k | k in backend :: backend[k].value
    }

    constructor ()
      ensures Valid() && Contents() == map[]
    {
      backend := map[];
    }

    /** Copies the entries of another map; they are not shared with it. */
    constructor From(other: ConcurrentHashMap<K, V>)
      requires other.Valid()
      ensures Valid() && Contents() == other.Contents() && fresh(backend.Values)
    {
      backend := map[];
      new;
      InsertCopies(other.backend.Values, other.Contents());
      assert Contents() == other.Contents();
    }

    /** The entries themselves, shared with the map. */
    method EntrySet() returns (entries: set<Entry<K, V>>)
      ensures entries == backend.Values
    {
      entries := set k | k in backend :: backend[k];
    }

    method Size() returns (n: nat)
      ensures n == |Contents()|
    {
      assert Contents().Keys == backend.Keys;
      n := |backend|;
    }

    method ContainsKey(key: K) returns (r: bool)
      ensures r <==> key in Contents()
    {
      r := key in backend;
    }

    /** A pointer to the value; null when the key is absent. */
    method Get(key: K) returns (p: Entry?<K, V>)
      ensures p == null <==> key !in Contents()
      ensures p != null ==> p == backend[key] && p.value == Contents()[key]
    {
      p := if key in backend then backend[key] else null;
    }

    /** Replaces the entry: a pointer got before keeps pointing to the old one. */
    method Put(key: K, value: V)
      requires Valid()
      modifies this
      ensures Valid() && Contents() == old(Contents())[key := value]
      ensures key in backend && fresh(backend[key]) && backend == old(backend)[key := backend[key]]
    {
      var entry := new Entry(key, value);
      backend := backend[key := entry];
    }

    method PutIfAbsent(key: K, value: V) returns (inserted: bool)
      requires Valid()
      modifies this
      ensures Valid() && (inserted <==> key !in old(Contents()))
      ensures Contents() == if inserted then old(Contents())[key := value] else old(Contents())
      ensures if inserted then key in backend && fresh(backend[key]) && backend == old(backend)[key := backend[key]]
              else backend == old(backend)
    {
      var entry := new Entry(key, value);
      inserted := key !in backend;
      if inserted {
        backend := backend[key := entry];
      }
    }

    method Remove(key: K) returns (removed: bool)
      requires Valid()
      modifies this
      ensures Valid() && (removed <==> key in old(Contents()))
      ensures Contents() == old(Contents()) - {key} && backend == old(backend) - {key}
    {
      removed := key in backend;
      backend := backend - {key};
    }

    method Clear()
      modifies this
      ensures Valid() && Contents() == map[]
    {
      backend := map[];
    }

    /** The loop of `putAll`: the set of entries is walked in an order nobody knows, here any
        order. Keys are unique in `source`, so the order does not show. */
    method InsertCopies(entries: set<Entry<K, V>>, ghost source: map<K, V>)
      requires Valid()
      requires forall e | e in entries :: e.key in source && e.value == source[e.key]
      requires forall k | k in source :: exists e :: e in entries && e.key == k
      modifies this
      ensures Valid() && Contents() == old(Contents()) + source
      ensures forall k | k in source :: k in backend && fresh(backend[k])
      ensures forall k | k in backend && k !in source :: k in old(backend) && backend[k] == old(backend)[k]
    {
      var left := entries;
      ghost var done: set<K> := {};
      while left != {}
        invariant Valid() && left <= entries
        invariant forall k | k in done :: k in source
        invariant forall e | e in entries :: e in left || e.key in done
        invariant backend.Keys == old(backend.Keys) + done
        invariant forall k | k in done :: fresh(backend[k]) && backend[k].value == source[k]
        invariant forall e | e in entries :: e.value == old(e.value)
        invariant forall k | k in backend && k !in done :: k in old(backend) && backend[k] == old(backend)[k]
        decreases left
      {
        var e :| e in left;
        Put(e.key, e.value);
        assert backend[e.key].value == Contents()[e.key] == source[e.key];
        left, done := left - {e}, done + {e.key};
      }
      assert done == source.Keys;
      assert Contents() == old(Contents()) + source;
    }

    /** `putAll` overrides this map by the other, which may be this map itself. */
    method PutAll(other: ConcurrentHashMap<K, V>)
      requires Valid() && other.Valid()
      modifies this
      ensures Valid() && Contents() == old(Contents()) + old(other.Contents())
      ensures forall k | k in old(other.Contents()) :: k in backend && fresh(backend[k])
      ensures forall k | k in backend && k !in old(other.Contents()) ::
                k in old(backend) && backend[k] == old(backend)[k]
    {
      var entries := other.EntrySet();
      InsertCopies(entries, other.Contents());
    }
  }

  /** A write through a pointer changes the map exactly when the map still holds the entry; a
      pointer to a replaced or removed entry changes nothing. */
  method WriteThrough<K(==), V>(m: ConcurrentHashMap<K, V>, p: Entry<K, V>, v: V)
    requires m.Valid()
    modifies p
    ensures m.Valid()
    ensures m.Contents() == if p.key in m.backend && m.backend[p.key] == p
                            then old(m.Contents())[p.key := v] else old(m.Contents())
  {
    p.SetValue(v);
  }
}
