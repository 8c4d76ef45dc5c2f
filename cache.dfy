/**
 * The cache as the source builds it: objects whose fields the operations
 * update in place. Each Cache operation is proved to perform the matching
 * step of module CacheSpec on the abstract state (table, capacity, store
 * contents, counters), so every property proved there holds of these methods.
 */
module WriteBackCache {
  import opened KeyDedup
  import opened CacheSpec

  /** Observability counters of one cache. */
  class Statistics {
    var cacheHits: nat
    var cacheMisses: nat
    var cacheAccesses: nat
    var evictions: nat

    function Snapshot(): Counters
      reads this
    {
      Counters(cacheHits, cacheMisses, cacheAccesses, evictions)
    }

    constructor ()
      ensures Snapshot() == Counters(0, 0, 0, 0) && Snapshot().Consistent()
    {
      cacheHits, cacheMisses, cacheAccesses, evictions := 0, 0, 0, 0;
    }

    method CacheHit()
      modifies this
      ensures Snapshot() == old(Snapshot()).Hit()
      ensures old(Snapshot().Consistent()) ==> Snapshot().Consistent()
    {
      cacheAccesses := cacheAccesses + 1;
      cacheHits := cacheHits + 1;
    }

    method CacheMiss()
      modifies this
      ensures Snapshot() == old(Snapshot()).Miss()
      ensures old(Snapshot().Consistent()) ==> Snapshot().Consistent()
    {
      cacheAccesses := cacheAccesses + 1;
      cacheMisses := cacheMisses + 1;
    }

    method CacheEvict()
      modifies this
      ensures Snapshot() == old(Snapshot()).Evicted()
    {
      evictions := evictions + 1;
    }
  }

  /**
   * The durable key-value store behind the cache. Only its contents are
   * modelled; each call is given the failure the store reports, if any.
   */
  class Store {
    var kv: map<Bytes, Bytes>

    constructor (kv: map<Bytes, Bytes>)
      ensures this.kv == kv
    {
      this.kv := kv;
    }

    /** A read; the store's answer for `key` given the failure it reports, if any. */
    function Get(key: Bytes, fault: Option<StoreError>): ReadResult
      reads this
    {
      StoreRead(kv, key, fault)
    }

    /** A synchronous write; on failure the store is unchanged and the error is returned. */
    method Set(key: Bytes, value: Bytes, fault: Option<StoreError>) returns (err: Option<StoreError>)
      modifies this
      ensures kv == StoreWrite(old(kv), key, value, fault) && err == fault
    {
      if fault.None? {
        kv := kv[key := value];
      }
      err := fault;
    }
  }

  /** A bounded table of entries in front of a durable store. */
  class Cache {
    var data: map<Bytes, Entry>
    const capacity: int
    const stats: Statistics
    const db: Store

    /** The abstract state the operations of CacheSpec act on. */
    function Abstract(): State
      reads this, stats, db
    {
      State(data, capacity, db.kv, stats.Snapshot())
    }

    ghost predicate Valid()
      reads this, stats, db
    {
      Inv(Abstract())
    }

    /** A cache with an empty table over an open store; the occupancy bound holds when the capacity is not negative. */
    constructor (db: Store, capacity: int)
      ensures this.db == db && fresh(stats)
      ensures Abstract() == State(map[], capacity, db.kv, Counters(0, 0, 0, 0))
      ensures Valid() <==> capacity >= 0
    {
      data := map[];
      this.capacity := capacity;
      this.db := db;
      stats := new Statistics();
    }

    /** The free slots of the table. */
    function RemainingCapacity(): (r: int)
      reads this
      ensures |data| <= capacity ==> 0 <= r <= capacity && (r == 0 <==> |data| == capacity)
    {
      Remaining(data, capacity)
    }

    method Get(key: Bytes, fault: Option<StoreError>) returns (value: Bytes, found: bool, err: Option<StoreError>)
      modifies stats
      ensures var r := GetStep(old(Abstract()), key, fault);
        Abstract() == r.state && value == r.value && found == r.found && err == r.err
      ensures old(Valid()) ==> Valid()
    {
      var k := MakeKey(key);
      assert k == key;
      if k in data {
        value := data[k].value;
        stats.CacheHit();
        return value, true, None;
      }
      stats.CacheMiss();
      match db.Get(key, fault)
      case NotFound =>
        return [], false, None;
      case ReadFailed(e) =>
        return [], false, Some(e);
      case Found(v) =>
        return v, true, None;
    }

    method Set(key: Bytes, value: Bytes, addToCache: bool, now: Time, fault: Option<StoreError>)
      returns (placed: bool, err: Option<StoreError>)
      modifies this, stats, db
      ensures var r := SetStep(old(Abstract()), key, value, addToCache, now, fault);
        Abstract() == r.state && placed == r.placed && err == r.err
      ensures old(Valid()) ==> Valid()
    {
      var k := MakeKey(key);
      assert k == key;
      if k in data {
        stats.CacheHit();
        var e := data[k];
        data := data[k := e.(lastUpdated := now, size := |value|, value := value)];
        return true, None;
      }
      stats.CacheMiss();
      if addToCache && |data| < capacity {
        data := data[k := Entry(value, |value|, now, now)];
        return true, None;
      }
      err := db.Set(key, value, fault);
      return false, err;
    }

    method Evict(key: Bytes, fault: Option<StoreError>) returns (evicted: bool, err: Option<StoreError>)
      modifies this, stats, db
      ensures var r := EvictStep(old(Abstract()), key, fault);
        Abstract() == r.state && evicted == r.evicted && err == r.err
      ensures old(Valid()) ==> Valid()
    {
      var k := MakeKey(key);
      assert k == key;
      if k !in data {
        return false, None;
      }
      var e := data[k];
      data := data - {k};
      err := db.Set(k, e.value, fault);
      if err.Some? {
        return false, err;
      }
      stats.CacheEvict();
      return true, None;
    }

    /**
     * De-duplicate the keys, then for each distinct key: a resident key is a
     * success; otherwise read the store, skip a missing key, stop at a store
     * error, and admit a found value only into a free slot.
     */
    method Prefetch(keys: seq<Bytes>, faults: map<Bytes, StoreError>, now: Time)
      returns (successes: nat, err: Option<StoreError>)
      modifies this
      ensures var r := PrefetchStep(old(Abstract()), keys, faults, now);
        data == r.data && successes == r.successes && err == r.err
      ensures old(Valid()) ==> Valid()
    {
      ghost var target := PrefetchStep(Abstract(), keys, faults, now);
      var distinct := DedupKeys(keys);
      successes := 0;
      var i := 0;
      while i < |distinct|
        invariant 0 <= i <= |distinct|
        invariant PrefetchFrom(data, capacity, db.kv, distinct[i..], faults, now, successes) == target
      {
        var k := distinct[i];
        assert distinct[i..][1..] == distinct[i + 1..];
        if k in data {
          successes := successes + 1;
        } else {
          match db.Get(k, FaultFor(faults, k))
          case NotFound =>
          case ReadFailed(e) =>
            return successes, Some(e);
          case Found(v) =>
            if RemainingCapacity() != 0 {
              data := data[k := Entry(v, |v|, now, now)];
              successes := successes + 1;
            }
        }
        i := i + 1;
      }
      err := None;
    }
  }
}
