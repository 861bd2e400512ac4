# go-generics-cache: the cache façade, modelled in Dafny

This project models the façade of the generic in-memory cache in `cache.go`. The façade holds items, each a value
with an optional absolute deadline, in an underlying policy store. On top of that store it provides
`Get`, `Set`, `Delete`, `Keys`, `List`, `Flush`, `Contains` and `DeleteExpired`. `NumberCache` adds
`Increment` and `Decrement`, which read a value and then write it back.

The model is sequential. The reader/writer lock, the numeric lock and the janitor goroutine are dropped.
The process-wide clock `nowFunc` becomes an integer parameter `now` of `NewItem`, `Get`, `Set`,
`DeleteExpired`, `Increment` and `Decrement`. A deadline is `NoDeadline`, which stands for Go's zero
`time.Time`, or `At(t)`.

Files (one module each):

- `wrappers.dfy`, module `Wrappers`: `Option`, used where Go returns a pointer that may be nil.
- `items.dfy`, module `Items`: `Item` and `Expired`, the option `WithExpiration` and `NewItem`.
- `store.dfy`, module `Store`: the store interface (`Get`, `Set`, `Keys`, `Delete`), written as its one
  unbounded implementation `SimpleStore`. This is the `simple` policy a new cache gets by default.
- `cache.dfy`, module `CacheFacade`: the `Cache` and `NumberCache` classes. It also holds two functions
  over store contents that the lemmas reason about. `Lookup` is what `Get` reports. `Sweep` is what
  `DeleteExpired` leaves behind.
- `examples.dfy`, module `Examples`: the scenarios of `example_test.go`, written as client methods. Their
  printed output is stated as assertions that follow from the contracts alone. All of them run on the simple
  store. In the source, three use other stores: `ExampleWithExpiration` uses FIFO (example_test.go:55),
  `ExampleCache_Delete` uses MRU (example_test.go:80) and `ExampleCache_Contains` uses LRU (example_test.go:100).

Code and documentation disagree in one place that changes behaviour. The comment at `cache.go:64` says that a zero or negative
expiration means "no expiration". The code at `cache.go:67` always sets the deadline to `now + exp`. The
model follows the code. `Items.NonPositiveExpirationExpires` shows the effect: with such a duration the
item is expired one instant later, and with a negative one it is expired at once.

Two other comments do not match their code, without changing behaviour. The comment at `cache.go:189` says
`Get` "returns nil", but it returns the zero value of `V`. The comment at `cache.go:206` says "return nil
instead", but `DeleteExpired` returns nothing.

## Model

| member | source | states |
|---|---|---|
| `Items.Item.Expired` | cache.go:46-52 | with no deadline the item is not expired; with deadline `t` it is expired iff `now > t` |
| `Items.ItemOption.Apply` | cache.go:65-69 | the closure `WithExpiration(exp)` returns sets the deadline to `now + exp`, whatever deadline the options held before and whatever the sign of `exp` |
| `Items.DeadlineFor` | cache.go:72-81 | the deadline `newItem` gives: none iff there are no options, otherwise the deadline set by applying the last option |
| `Items.NoDeadlineNeverExpires` | cache.go:47-50 | an item with no deadline is never expired |
| `Items.ExpiredExactlyAfterDeadline` | cache.go:47-52 | with a deadline `t`, an item is expired at `now` iff `now > t` (strictly after); once expired it stays expired at every later time |
| `Items.NewItem` | cache.go:71-82 | the item carries the given key and value; with no options it has no deadline; otherwise the deadline is `now + exp` of the last option, because the options are applied in order and each overwrites the deadline |
| `Items.LastExpirationWins` | cache.go:65-69 | of two `WithExpiration` options, the deadline comes from the second |
| `Items.NonPositiveExpirationExpires` | cache.go:63-69 | `WithExpiration(exp)` with `exp <= 0` still sets a deadline: the item is expired at `now + 1`, and at `now` itself when `exp < 0` |
| `Store.SimpleStore.constructor` | cache.go:101-106 | the default store starts empty |
| `Store.SimpleStore.Get` | cache.go:18-19 | a present key gives its stored value; an absent key gives nothing |
| `Store.SimpleStore.Set` | cache.go:20-21 | `key` maps to the new value; every other entry is unchanged |
| `Store.SimpleStore.Delete` | cache.go:24-25 | `key` is removed and nothing else changes |
| `Store.SimpleStore.Keys` | cache.go:22-23 | the keys come without duplicates, and they are exactly the stored keys; no order is promised |
| `CacheFacade.Cache.constructor` | cache.go:158-177 | a new cache has a fresh, empty store |
| `CacheFacade.Cache.Get` | cache.go:179-196 | `ok` holds iff the key is present and its item is not expired at `now`; then `value` is the item's value, otherwise it is the zero value; the method changes nothing, so an expired item is not deleted |
| `CacheFacade.Cache.DeleteExpired` | cache.go:198-213 | afterwards a key is present iff it was present and its item was not expired at `now`; every remaining item is unchanged |
| `CacheFacade.Cache.Set` | cache.go:215-221 | the store maps `key` to a fresh item with the new value and the deadline of the options; this replaces any earlier item wholesale and leaves other keys alone |
| `CacheFacade.Cache.Keys` | cache.go:223-228 | every stored key exactly once, expired ones included |
| `CacheFacade.Cache.List` | cache.go:230-244 | the returned map's keys are exactly the stored keys, expired items included; each maps to its item's value |
| `CacheFacade.Cache.Flush` | cache.go:246-254 | afterwards the store is empty |
| `CacheFacade.Cache.Delete` | cache.go:256-261 | only `key` is removed; on an absent key the store is unchanged |
| `CacheFacade.Cache.Contains` | cache.go:263-269 | true iff the key is in the store, whether or not its item has expired |
| `CacheFacade.NumberCache.constructor` | cache.go:280-285 | a new number cache has an empty store and zero value 0 |
| `CacheFacade.NumberCache.Increment` | cache.go:287-297 | returns `old + n`, where `old` is what `Get` reports or 0 for a missing or expired key; the key then maps to an item with that value and no deadline |
| `CacheFacade.NumberCache.Decrement` | cache.go:299-308 | returns `old - n`, with `old` as for `Increment`; the key then maps to an item with that value and no deadline |
| `CacheFacade.Lookup` | cache.go:183-195 | a value is reported iff the key is present and its item is not expired; the value is the item's value |
| `CacheFacade.Sweep` | cache.go:204-212 | the sweep loop only deletes: the result's keys are among the old keys, every remaining item is unchanged, and a key outside the snapshot is never deleted |
| `CacheFacade.SweepRemovesExpired` | cache.go:204-212 | processing any snapshot of keys in order removes exactly the snapshot keys that are present and expired, and keeps every other item with its value; a snapshot key that is already gone is skipped |
| `CacheFacade.SweepOfAllKeys` | cache.go:199-213 | with a snapshot of all keys, no remaining item is expired, and `Get` at the same instant reports the same for every key as before the sweep |
| `CacheFacade.GetAfterSet` | cache.go:180-196 | after `Set` with no options, `Get` returns the value at every time; with options it returns the value iff the last option's deadline has not passed, and a miss after it has; whatever was stored before does not matter |
| `CacheFacade.SetLeavesOtherKeys` | cache.go:216-221 | `Set` on one key does not change what `Get` reports for another |
| `CacheFacade.GetAfterDelete` | cache.go:257-261 | after `Delete(key)`, `Get(key)` misses and every other key reads as before |
| `CacheFacade.ExpiredEntryLingers` | cache.go:189-193 | for a cache whose store holds an expired item under `key`, calling `Get`, `Contains`, `Keys` and `List` gives a miss with the zero value from `Get`, while `Contains` is true, `Keys` lists `key` and `List` maps it to the item's value |
| `CacheFacade.GetAfterIncrement` | cache.go:293-295 | the item written by `Increment` or `Decrement` has no deadline, so `Get` returns the new value at every later time; any deadline the old item had is dropped |

## Left out

- The locks `mu` and `nmu` are not modelled, because their only role is concurrency. Every operation is one sequential step. The lost-update guarantee of `Increment`/`Decrement` under concurrent callers is therefore not modelled either.
- The janitor (`newJanitor`, `run`, context cancellation) is not modelled. It is a background goroutine and timer whose code is not part of this model. Its effect is covered only through `DeleteExpired`.
- The per-key locking inside `DeleteExpired` is not modelled. `SweepRemovesExpired` holds for any snapshot, so it covers writes that land after the key snapshot is taken but before the sweep starts. Writes by other callers between two steps of the sweep are not modelled; with such a write, an item can remain present and expired afterwards.
- The bounded policies (`lru`, `lfu`, `fifo`, `mru`, `clock`) and the `simple` package's own code are not part of this model. So eviction on `Set`, recency updates on `Get` and the order of `Keys` (including example_test.go:89-97 and the LRU example) are not modelled. `Store.SimpleStore` is the store contract given as a plain map, and no contract relies on key order.
- Three pieces of wiring are not modelled: the options `AsLRU`, `AsLFU`, `AsFIFO`, `AsMRU`, `AsClock` and `WithJanitorInterval`, the option plumbing of `New`/`NewContext` beyond the default store, and the compile-time interface assertion.
- `time.Time` and `time.Duration` become integer timestamps and durations. A deadline computed by `WithExpiration` that lands exactly on Go's zero time is not modelled; the model treats every `At(t)` as a real deadline.
- Each call takes a single `now`. In the source, `nowFunc` is read separately for each option and each item.
- `Items.ItemOption`: Go's option is a closure over `*itemOptions`; since `WithExpiration` is the only one, it is modelled as a datatype with an `Apply` function.
- `CacheFacade.Cache.Get`: Go's zero value of `V` is a constant `zero` fixed when the cache is constructed. `NumberCache.Valid` pins it to 0.
- `CacheFacade.NumberCache.Increment`: values are unbounded integers. Go's fixed-width wrap-around and floating-point `Number` instantiations are not modelled.
- `CacheFacade.NumberCache.Decrement`: as for `Increment`, integer wrap-around is not modelled.
