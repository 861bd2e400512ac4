/**
 * The cache façade (cache.go:84-269) and its numeric specialisation
 * (cache.go:271-308), read sequentially: the locks and the background
 * janitor are not modelled, and every operation that consults the clock
 * takes the current time `now` as a parameter.
 */
module CacheFacade {
  import opened Wrappers
  import opened Items
  import opened Store

  /** What `Get` reports for `key` at time `now` over the store contents
      `m`: the value of a present and unexpired item, otherwise nothing. */
  function Lookup<K(==), V>(m: map<K, Item<K, V>>, key: K, now: int): (r: Option<V>)
    ensures r.Some? <==> key in m && !m[key].Expired(now)
    ensures r.Some? ==> r.value == m[key].value
  {
    if key in m && !m[key].Expired(now) then Some(m[key].value) else None
  }

  /** The store contents after `DeleteExpired` has processed the keys of
      `snapshot` in order at time `now`: each key that is still present and
      expired when its turn comes is deleted. */
  function Sweep<K(==), V>(m: map<K, Item<K, V>>, snapshot: seq<K>, now: int): (r: map<K, Item<K, V>>)
    ensures r.Keys <= m.Keys
    ensures forall k :: k in r ==> r[k] == m[k]
    ensures forall k :: k in m && k !in snapshot ==> k in r
    decreases |snapshot|
  {
    if snapshot == [] then m
    else
      var before := Sweep(m, snapshot[..|snapshot| - 1], now);
      var k := snapshot[|snapshot| - 1];
      if k in before && before[k].Expired(now) then before - {k} else before
  }

  /** A sweep removes exactly the snapshot keys that are present and
      expired, whatever the snapshot holds, and keeps every other item as
      it was. */
  lemma {:induction false} SweepRemovesExpired<K, V>(m: map<K, Item<K, V>>, snapshot: seq<K>, now: int)
    ensures forall k :: k in Sweep(m, snapshot, now) ==> k in m && !(k in snapshot && m[k].Expired(now))
    ensures forall k :: k in m && !(k in snapshot && m[k].Expired(now)) ==> k in Sweep(m, snapshot, now)
    ensures forall k :: k in Sweep(m, snapshot, now) ==> Sweep(m, snapshot, now)[k] == m[k]
  {
    if snapshot != [] {
      var init := snapshot[..|snapshot| - 1];
      SweepRemovesExpired(m, init, now);
      assert forall k :: k in snapshot <==> k in init || k == snapshot[|snapshot| - 1];
    }
  }

  /** Sweeping over a snapshot of all keys leaves no expired item, and what
      `Get` reports at the same instant does not change. */
  lemma SweepOfAllKeys<K, V>(m: map<K, Item<K, V>>, snapshot: seq<K>, now: int)
    requires forall k :: k in snapshot <==> k in m
    ensures forall k :: k in Sweep(m, snapshot, now) ==> !Sweep(m, snapshot, now)[k].Expired(now)
    ensures forall k :: Lookup(Sweep(m, snapshot, now), k, now) == Lookup(m, k, now)
  {
    SweepRemovesExpired(m, snapshot, now);
    forall k | k in Sweep(m, snapshot, now)
      ensures !Sweep(m, snapshot, now)[k].Expired(now)
    {
      assert k in m && k in snapshot;
    }
  }

  /** After `Set(key, val, opts)` at time `now`, `Get(key)` at any time
      `later` returns `val` until the deadline of the last option passes,
      and for ever when there are no options; whatever was stored under
      `key` before plays no part. */
  lemma GetAfterSet<K, V>(m: map<K, Item<K, V>>, key: K, val: V, opts: seq<ItemOption>, now: int, later: int)
    ensures opts == [] ==> Lookup(m[key := Item(key, val, DeadlineFor(opts, now))], key, later) == Some(val)
    ensures opts != [] ==>
      (Lookup(m[key := Item(key, val, DeadlineFor(opts, now))], key, later) == Some(val)
       <==> later <= now + opts[|opts| - 1].exp)
    ensures opts != [] && later > now + opts[|opts| - 1].exp ==>
      Lookup(m[key := Item(key, val, DeadlineFor(opts, now))], key, later) == None
  {
  }

  /** `Set` on one key does not change what `Get` reports for another. */
  lemma SetLeavesOtherKeys<K, V>(m: map<K, Item<K, V>>, key: K, item: Item<K, V>, other: K, now: int)
    requires other != key
    ensures Lookup(m[key := item], other, now) == Lookup(m, other, now)
  {
  }

  /** After `Delete(key)`, `Get(key)` misses, and every other key reads as
      before. */
  lemma GetAfterDelete<K, V>(m: map<K, Item<K, V>>, key: K, other: K, now: int)
    ensures Lookup(m - {key}, key, now) == None
    ensures other != key ==> Lookup(m - {key}, other, now) == Lookup(m, other, now)
  {
  }

  /** The item `Increment` or `Decrement` writes has no deadline, so `Get`
      returns the new value at every later time, even when the item it
      replaced had a deadline. */
  lemma GetAfterIncrement<K>(m: map<K, Item<K, int>>, key: K, nv: int, later: int)
    ensures Lookup(m[key := Item(key, nv, NoDeadline)], key, later) == Some(nv)
  {
  }

  /** The thread-safe cache, without its lock and janitor, over the default
      unbounded store of items. */
  class Cache<K(==), V> {
    /** The underlying policy store. */
    const store: SimpleStore<K, Item<K, V>>
    /** Go's zero value of `V`, which `Get` returns on a miss. */
    const zero: V

    /** `New` with no options: an empty `simple` store. */
    constructor (zero: V)
      ensures fresh(store) && store.items == map[]
      ensures this.zero == zero
    {
      store := new SimpleStore();
      this.zero := zero;
    }

    /** Looks up `key`: a present item that has not expired at `now` gives
        its value; a missing or expired one gives `(zero, false)`. Nothing
        is deleted. */
    method Get(key: K, now: int) returns (value: V, ok: bool)
      ensures ok <==> key in store.items && !store.items[key].Expired(now)
      ensures ok ==> value == store.items[key].value
      ensures !ok ==> value == zero
      ensures Lookup(store.items, key, now) == if ok then Some(value) else None
    {
      var item := store.Get(key);
      if item.None? {
        return zero, false;
      }
      if item.value.Expired(now) {
        return zero, false;
      }
      return item.value.value, true;
    }

    /** Deletes every item that is present and expired at `now`, one key of
        a snapshot at a time, re-reading each item before deleting it. */
    method DeleteExpired(now: int)
      modifies store
      ensures forall k :: k in store.items <==> k in old(store.items) && !old(store.items)[k].Expired(now)
      ensures forall k :: k in store.items ==> store.items[k] == old(store.items)[k]
    {
      var keys := store.Keys();
      ghost var before := store.items;
      var i := 0;
      while i < |keys|
        invariant 0 <= i <= |keys|
        invariant store.items == Sweep(before, keys[..i], now)
      {
        assert keys[..i + 1][..i] == keys[..i];
        var item := store.Get(keys[i]);
        if item.Some? && item.value.Expired(now) {
          store.Delete(keys[i]);
        }
        i := i + 1;
      }
      assert keys[..|keys|] == keys;
      SweepRemovesExpired(before, keys, now);
    }

    /** Stores a fresh item built from `val` and `opts` at time `now`,
        replacing any earlier item for `key` wholesale. */
    method Set(key: K, val: V, opts: seq<ItemOption>, now: int)
      modifies store
      ensures store.items == old(store.items)[key := Item(key, val, DeadlineFor(opts, now))]
    {
      var item := NewItem(key, val, opts, now);
      store.Set(key, item);
    }

    /** The store's keys, expired ones included, each once. */
    method Keys() returns (keys: seq<K>)
      ensures Distinct(keys)
      ensures forall k :: k in keys <==> k in store.items
    {
      keys := store.Keys();
    }

    /** Every stored key with its value, expired items included. */
    method List() returns (items: map<K, V>)
      ensures items.Keys == store.items.Keys
      ensures forall k :: k in items ==> items[k] == store.items[k].value
    {
      var keys := store.Keys();
      items := map[];
      var i := 0;
      while i < |keys|
        invariant 0 <= i <= |keys|
        invariant forall j :: 0 <= j < i ==> keys[j] in items
        invariant forall k :: k in items ==> k in store.items && items[k] == store.items[k].value
      {
        var item := store.Get(keys[i]);
        if item.Some? {
          items := items[keys[i] := item.value.value];
        }
        i := i + 1;
      }
    }

    /** Deletes every key of a snapshot of the keys, leaving the store
        empty. */
    method Flush()
      modifies store
      ensures store.items == map[]
    {
      var keys := store.Keys();
      var i := 0;
      while i < |keys|
        invariant 0 <= i <= |keys|
        invariant forall k :: k in store.items ==> k in keys[i..]
      {
        store.Delete(keys[i]);
        i := i + 1;
      }
      assert store.items.Keys == {};
    }

    /** Removes `key`; an absent key leaves the store as it was. */
    method Delete(key: K)
      modifies store
      ensures store.items == old(store.items) - {key}
      ensures key !in old(store.items) ==> store.items == old(store.items)
    {
      store.Delete(key);
    }

    /** Whether `key` is in the store, expired or not. */
    method Contains(key: K) returns (found: bool)
      ensures found <==> key in store.items
    {
      var item := store.Get(key);
      found := item.Some?;
    }
  }

  /** The cache for numbers, with read-modify-write updates. */
  class NumberCache<K(==)> {
    const cache: Cache<K, int>

    /** Go's zero value for a number is 0. */
    predicate Valid()
    {
      cache.zero == 0
    }

    /** `NewNumber` with no options. */
    constructor ()
      ensures Valid()
      ensures fresh(cache) && fresh(cache.store) && cache.store.items == map[]
    {
      cache := new Cache(0);
    }

    /** Adds `n` to the value `Get` reports (0 when `key` is missing or
        expired), stores the sum without a deadline and returns it. */
    method Increment(key: K, n: int, now: int) returns (nv: int)
      requires Valid()
      modifies cache.store
      ensures nv == Lookup(old(cache.store.items), key, now).GetOr(0) + n
      ensures cache.store.items == old(cache.store.items)[key := Item(key, nv, NoDeadline)]
    {
      var got, _ := cache.Get(key, now);
      nv := got + n;
      cache.Set(key, nv, [], now);
    }

    /** Subtracts `n` from the value `Get` reports (0 when `key` is missing
        or expired), stores the difference without a deadline and returns
        it. */
    method Decrement(key: K, n: int, now: int) returns (nv: int)
      requires Valid()
      modifies cache.store
      ensures nv == Lookup(old(cache.store.items), key, now).GetOr(0) - n
      ensures cache.store.items == old(cache.store.items)[key := Item(key, nv, NoDeadline)]
    {
      var got, _ := cache.Get(key, now);
      nv := got - n;
      cache.Set(key, nv, [], now);
    }
  }

  /** An expired item that has not been reclaimed is a miss for `Get`, yet
      `Contains`, `Keys` and `List` still report it, and none of these calls
      removes it. */
  method ExpiredEntryLingers<K(==), V>(c: Cache<K, V>, key: K, now: int)
    returns (value: V, ok: bool, found: bool, keys: seq<K>, listed: map<K, V>)
    requires key in c.store.items && c.store.items[key].Expired(now)
    ensures !ok && value == c.zero
    ensures found && key in keys && key in listed
    ensures listed[key] == c.store.items[key].value
  {
    value, ok := c.Get(key, now);
    found := c.Contains(key);
    keys := c.Keys();
    listed := c.List();
  }
}
