# Write-back cache over a durable key-value store

This project models the bounded write-back cache of `cache/cache.go`. The cache
keeps a table from byte-string keys to entries in front of a durable key-value
store (Pebble). The table never holds more than `capacity` entries. A write
goes to the table when the key is resident, or when the caller asks for
admission and a slot is free; otherwise it goes straight to the store. An
entry reaches the store only when it is evicted. Prefetch warms the table from
the store, but only into free slots.

The project has three modules, one per file:

- `KeyDedup` (`dedup.dfy`): the de-duplication pass at the start of `Prefetch`.
  `Dedup` is the specification and `DedupKeys` is the source's loop, proved
  equal to it. Lemmas show the result has no duplicates, has the same elements
  as the input, keeps first-occurrence order, and has one element per distinct
  key.
- `CacheSpec` (`cache_spec.dfy`): the values (entries, counters, the abstract
  `State` of table, capacity, store contents and counters) and one pure step
  function per operation. Each step's contract states the operation's
  behaviour. The lemmas state it in terms of the cache's *view*: the map a
  caller observes, where a resident entry wins over the store.
  - Set never drops a write.
  - Evict writes back and keeps the view, unless the write-back fails.
  - Prefetch never changes the view and never removes or overwrites an entry.
  - Prefetch's success count is exact, including after an error.
  - Prefetch fills free slots with the stored keys in the order in which they
    first occur in the request. It keeps what it admitted before a failed
    store read, and it reports the first failed read.
- `WriteBackCache` (`cache.dfy`): the objects of the source. `Statistics` is a
  class whose counters are incremented in place. `Store` stands for the Pebble
  handle. `Cache` has its table as a `map` field, a constant capacity, and
  `Get`, `Set`, `Evict` and `Prefetch` as methods. Each method's postcondition
  says that it performs the matching `CacheSpec` step on `Abstract()`. Each
  method also keeps `Valid()`: the occupancy bound `|data| <= capacity`, sizes
  that match values, and `accesses == hits + misses`.

Store failures are inputs. `Get`, `Set` and `Evict` take `fault: Option<StoreError>`, the
error the store reports for that call, if any. `Prefetch` takes a map from key to the
error the store reports when reading that key. Prefetch reads each distinct key at
most once, so a per-key map covers every outcome. A failed store write leaves
the store unchanged. The wall clock is an input as well: `now` is the time that
`Set` and `Prefetch` stamp on entries.

Keys are byte sequences. `makeKey` in the source turns bytes into a Go string
only so that keys are compared by content. A Dafny `seq<bv8>` already has
value equality, so `MakeKey` returns a copy with the same bytes.

The source does not reject a negative capacity, although callers are meant to
pass a positive one. With a negative capacity, `Set` never admits a key
(cache/cache.go:161 tests `len < capacity`). `Prefetch` does admit keys, because its
guard at cache/cache.go:274 only tests for exactly zero free slots.
`CacheSpec.NegativeCapacityAdmission` exhibits this. The model follows the code
as written, and the constructor establishes `Valid()` exactly when the capacity
is not negative.

Evict removes the entry from the table before it writes the value back
(cache/cache.go:198-205). If the write-back fails, the entry is gone and the
store still holds its old value for the key (`CacheSpec.EvictWritesBack`).

Some members stand for one piece of the source and have no row of their own:

- `CacheSpec.PrefetchFrom` is the second loop of Prefetch (cache/cache.go:233-292),
  written as a recursive function over the remaining keys. It has no contract.
  Its properties are the `Prefetch…` lemmas over it in the table below.
- `WriteBackCache.Store.Get` is the Pebble read at cache/cache.go:125 and 244.
  It returns `CacheSpec.StoreRead`, whose contract is in the table.
  `WriteBackCache.Store.Set` is the synchronous Pebble write at cache/cache.go:173
  and 203. It performs `CacheSpec.StoreWrite`.
- `CacheSpec.Remaining` is `capacity - len(data)` (cache/cache.go:212-215), the
  body of `WriteBackCache.Cache.RemainingCapacity`, whose contract states its bounds.

## Model

| member | source | states |
|---|---|---|
| `CacheSpec.MakeKey` | cache/cache.go:66-69 | the table key is a copy with the same length and the same bytes as the caller's key |
| `CacheSpec.MakeKeyMatchesContent` | cache/cache.go:59-69 | two keys reach the same table key exactly when their bytes are equal |
| `WriteBackCache.Statistics.constructor` | cache/cache.go:71-79 | all counters start at zero, so hits plus misses equals accesses |
| `WriteBackCache.Statistics.CacheHit` | cache/cache.go:28-31 | one more hit and one more access, nothing else; keeps accesses == hits + misses |
| `WriteBackCache.Statistics.CacheMiss` | cache/cache.go:33-36 | one more miss and one more access, nothing else; keeps accesses == hits + misses |
| `WriteBackCache.Statistics.CacheEvict` | cache/cache.go:38-40 | one more eviction, nothing else |
| `WriteBackCache.Cache.constructor` | cache/cache.go:81-92 | empty table, the given capacity and store, fresh zeroed counters; the cache invariant holds iff capacity >= 0 |
| `WriteBackCache.Cache.Get` | cache/cache.go:108-142 | the new counters and the results are those of `GetStep`; only the counters change; the invariant is kept |
| `WriteBackCache.Cache.Set` | cache/cache.go:144-180 | the new table, store, counters and results are those of `SetStep`; the invariant is kept |
| `WriteBackCache.Cache.Evict` | cache/cache.go:182-210 | the new table, store, counters and results are those of `EvictStep`; the invariant is kept |
| `WriteBackCache.Cache.Prefetch` | cache/cache.go:217-295 | both loops together produce the table, success count and error of `PrefetchStep`; store and counters are untouched; the invariant is kept |
| `KeyDedup.Dedup` | cache/cache.go:222-231 | the de-duplicated list is no longer than the input and has exactly the input's elements |
| `KeyDedup.DedupKeys` | cache/cache.go:220-231 | the loop with its `seen` set returns `Dedup(keys)`, which has no duplicates |
| `KeyDedup.DedupHasNoDuplicates` | cache/cache.go:226-230 | no key occurs twice in the de-duplicated list |
| `KeyDedup.DedupKeepsFirstOccurrenceOrder` | cache/cache.go:224-231 | keys appear in the order of their first occurrence in the input |
| `KeyDedup.DedupLength` | cache/cache.go:222-231 | the de-duplicated list has one element per distinct input key |
| `WriteBackCache.Cache.RemainingCapacity` | cache/cache.go:212-215 | under the occupancy bound, the free slots are between 0 and the capacity, and 0 exactly when the table is full |
| `CacheSpec.StoreRead` | cache/cache.go:125-132 | a read the store fails returns that error; otherwise the read finds a key exactly when the store holds it, with the stored value, and a missing key is not-found rather than an error |
| `CacheSpec.StoreWrite` | cache/cache.go:173-176 | a failed synchronous write leaves the store unchanged; a successful one maps the key to the value and leaves every other key as it was |
| `WriteBackCache.Store.Set` | cache/cache.go:203-205 | the write performs `StoreWrite` on the store's contents and returns the store's error, if any |
| `CacheSpec.GetStep` | cache/cache.go:108-142 | Get changes only the counters, recording exactly one hit (resident key) or one miss; without an error it finds a key exactly when the key is in the view and returns the view's value; a resident key is served from the table; store not-found is (not found, no error); for a non-resident key the result's error is exactly the store's error, and an error means not found |
| `CacheSpec.SetStep` | cache/cache.go:144-180 | a resident key is updated in place whatever the admission hint (new value, size = value length, update time now, insertion time kept, key set unchanged, (true, no error)); otherwise one miss, and the key is admitted exactly when the hint is set and the table has fewer than capacity entries; otherwise the table is unchanged and the value is written to the store, and the result's error is exactly the store's error; a store error comes back with false and changes nothing; no other entry changes; the invariant is kept |
| `CacheSpec.EvictStep` | cache/cache.go:182-210 | a non-resident key gives (false, no error) and no change; a resident key leaves the table, and only that key, even when the write-back fails; evicted iff resident and the write succeeded, in which case the store holds the last value and one eviction is counted; a failed write-back returns the store's error with store and counters unchanged |
| `CacheSpec.PrefetchKeepsEntries` | cache/cache.go:233-292 | the admission loop never removes or overwrites an entry |
| `CacheSpec.PrefetchAdmitsStoreValues` | cache/cache.go:243-289 | every key the admission loop adds is one of the requested keys and holds the store's value, with a matching size and both timestamps now |
| `CacheSpec.PrefetchFillsOnlyFreeSlots` | cache/cache.go:274-289 | the admission loop keeps the occupancy bound: it only fills free slots and never evicts |
| `CacheSpec.PrefetchSuccessRange` | cache/cache.go:236-291 | each key adds at most one success, so the count grows by at most the number of keys |
| `CacheSpec.PrefetchStep` | cache/cache.go:217-295 | Prefetch keeps every existing entry, admits only requested keys, keeps the invariant, and reports at most as many successes as there are distinct keys |
| `CacheSpec.SetNeverDropsWrite` | cache/cache.go:152-177 | after a Set without error the view maps the key to the new value and is otherwise unchanged; after a store error the view is unchanged |
| `CacheSpec.SetThenGet` | cache/cache.go:108-180 | a Set that returns no error, followed by Get of the same key, returns the value just written, from the table or from the store |
| `CacheSpec.EvictWritesBack` | cache/cache.go:197-205 | a successful eviction leaves the view unchanged; a failed write-back reverts the key's view to the store's old value, or to absent |
| `CacheSpec.EvictThenGet` | cache/cache.go:182-210 | evicting a resident key and then reading it returns the evicted value, now from the store |
| `CacheSpec.EvictIdempotent` | cache/cache.go:188-195 | a second Evict of the same key returns (false, no error) and changes nothing, whatever the store does |
| `CacheSpec.PrefetchKeepsView` | cache/cache.go:259-289 | prefetch only copies store values into the table, so the view does not change |
| `CacheSpec.PrefetchCountsResidentKeys` | cache/cache.go:233-292 | over distinct keys, an error-free run counts as successes exactly the keys resident at the end |
| `CacheSpec.PrefetchPartialOnError` | cache/cache.go:251-257 | a run stopped by a store error returns the error of the first non-resident key whose read failed (no earlier non-resident key failed); the successes are those among the earlier keys; every key added is one of the earlier keys; the entries already in the table stay (that the earlier stored keys were admitted while a slot was free is `PrefetchSkipsOnlyWhenFull`) |
| `CacheSpec.PrefetchAdmitsWhileRoom` | cache/cache.go:259-289 | in a run without error, every requested key that is in the store and not resident is resident at the end, unless the table is full at the end |
| `CacheSpec.PrefetchSkipsOnlyWhenFull` | cache/cache.go:233-289 | a stored, non-resident key whose read succeeds, with no failed read of a non-resident key before it, is resident at the end even if a later read fails; otherwise the table is full and every key added came before it |
| `CacheSpec.PrefetchReportsFault` | cache/cache.go:251-257 | a requested key that is not resident and whose store read fails makes the run end with an error |
| `CacheSpec.PrefetchIntoFullTable` | cache/cache.go:274-278 | when the table is full, the admission loop leaves it exactly as it was |
| `CacheSpec.PrefetchSuccesses` | cache/cache.go:217-295 | Prefetch's success count is the number of distinct requested keys resident afterwards (or, after an error, among the keys before the failing one), and never exceeds the number of distinct keys |
| `CacheSpec.PrefetchWarmsTable` | cache/cache.go:217-295 | after a Prefetch without error, a requested key that was only in the store is resident with the store's value, unless the table is full at the end |
| `CacheSpec.PrefetchFillsInRequestOrder` | cache/cache.go:220-295 | free slots go to stored keys in order of first occurrence in the request: a stored, non-resident key with no failed read of a non-resident key first occurring before it is resident afterwards with the store's value, whatever happens later; otherwise the table is full and every key added first occurs before it |
| `CacheSpec.PrefetchStopsOnFault` | cache/cache.go:251-257 | Prefetch returns an error whenever the store fails to read a requested key that is not resident |
| `CacheSpec.PrefetchNeverEvicts` | cache/cache.go:265-278 | Prefetch into a full table admits nothing and removes nothing |
| `CacheSpec.GetUnknownKey` | cache/cache.go:121-129 | Get of a key in neither the table nor the store returns not found, no error, and exactly one more miss |
| `CacheSpec.CapacityTwoScenario` | cache/cache.go:159-177 | with capacity 2, the first two Sets are admitted (2 free slots, then 1, then 0), a third goes to the store with (false, no error), and Get then finds it |
| `CacheSpec.PrefetchDuplicateScenario` | cache/cache.go:222-291 | Prefetch of [K1, K1, K2] with K1 resident and K2 only in the store, with a free slot, gives two successes and admits K2 |
| `CacheSpec.NegativeCapacityAdmission` | cache/cache.go:274-278 | with a negative capacity, Set declines admission while Prefetch admits the key |

## Left out

- Locking (`sync.RWMutex`) and the races it allows are not modelled; every operation is atomic and sequential. So the re-check in Prefetch for a key inserted by another caller during the store read (cache/cache.go:267-272) can never succeed, and it is omitted. Evict's unlocked write-back window and the approximate counters under concurrency are not modelled either.
- Timestamps: `time.Now()` becomes the parameter `now`. A new entry gets the same `now` as both insertion time and update time, where the source reads the clock twice.
- Pebble is modelled only as a map from key to value, with an error outcome per call. Its internals, the `closer` buffers, the `pebble.Sync` durability level and `Close` (cache/cache.go:104-106) are foreign calls and are not modelled. A failed write is taken to leave the store unchanged.
- `CreateCacheAndPebble` (cache/cache.go:94-102) is not modelled. It opens an on-disk database at a fixed path and logs a failure, which is I/O only.
- Defensive copies of byte slices, and the aliasing they prevent, are not modelled. Dafny sequences are immutable values, so aliasing cannot be observed.
- The `prefetches` and `additions` counters and their methods `CachePrefetch` and `CacheAdd` (cache/cache.go:42-48) are not modelled. Nothing in the cache calls them.
- Go's `int` is unbounded here. Counter and size overflow are not modelled.
