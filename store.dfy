/**
 * The store interface every replacement policy implements (cache.go:17-26),
 * given by its one unbounded implementation: the `simple` policy that a new
 * cache uses by default (cache.go:103).
 */
module Store {
  import opened Wrappers

  /** No element occurs twice in `s`. */
  predicate Distinct<K(==)>(s: seq<K>)
  {
    forall i, j :: 0 <= i < j < |s| ==> s[i] != s[j]
  }

  /** The `simple` policy: a key-to-value map that never evicts and whose
      key order is unspecified. */
  class SimpleStore<K(==), V> {
    var items: map<K, V>

    constructor ()
      ensures items == map[]
    {
      items := map[];
    }

    /** Looks up a key; a miss is `None` (Go's nil item). */
    method Get(key: K) returns (r: Option<V>)
      ensures key in items ==> r == Some(items[key])
      ensures key !in items ==> r == None
    {
      if key in items {
        r := Some(items[key]);
      } else {
        r := None;
      }
    }

    /** Inserts or replaces the value of `key`. */
    method Set(key: K, val: V)
      modifies this
      ensures items == old(items)[key := val]
    {
      items := items[key := val];
    }

    /** Removes `key`, if present, and nothing else. */
    method Delete(key: K)
      modifies this
      ensures items == old(items) - {key}
    {
      items := items - {key};
    }

    /** Every stored key exactly once, in some order. */
    method Keys() returns (keys: seq<K>)
      ensures Distinct(keys)
      ensures forall k :: k in keys <==> k in items
    {
      keys := [];
      var rest := items.Keys;
      while rest != {}
        invariant rest <= items.Keys
        invariant forall k :: k in keys <==> k in items && k !in rest
        invariant Distinct(keys)
        decreases rest
      {
        var k :| k in rest;
        keys := keys + [k];
        rest := rest - {k};
      }
    }
  }
}
