/** The process-local store buffer (an IMemoryCache) as the facades use it: a map
    from namespaced key to a value and its absolute expiry time, read against an
    explicit clock. */
module StoreBuffer {
  import opened CacheTypes

  datatype BufferEntry<T> = BufferEntry(value: T, expiresAt: nat)

  type Buffer<T> = map<string, BufferEntry<T>>

  /** A buffer time to live: the memory cache rejects a non-positive relative expiry. */
  type Ttl = ttl: nat | ttl > 0 witness 1

  /** `Set(key, value, ttl)` at time `now`: the entry expires `ttl` seconds later,
      replacing whatever the key held. */
  function Store<T>(buffer: Buffer<T>, key: string, value: T, ttl: nat, now: nat): Buffer<T>
  {
    buffer[key := BufferEntry(value, now + ttl)]
  }

  /** `TryGetValue(key)` at time `now`: a hit only while the entry's expiry lies ahead. */
  function Lookup<T>(buffer: Buffer<T>, key: string, now: nat): Option<T>
  {
    if key in buffer && now < buffer[key].expiresAt then Some(buffer[key].value) else None
  }

  /** A stored value is found again until its time to live has passed, and not after. */
  lemma LookupAfterStore<T>(buffer: Buffer<T>, key: string, value: T, ttl: nat, now: nat, later: nat)
    requires now <= later
    ensures Lookup(Store(buffer, key, value, ttl, now), key, later) ==
            if later < now + ttl then Some(value) else None
  {
  }

  /** Storing under one key never changes what another key yields. */
  lemma StoreKeepsOtherKeys<T>(buffer: Buffer<T>, key: string, value: T, ttl: nat, now: nat,
                               other: string, later: nat)
    requires other != key
    ensures Lookup(Store(buffer, key, value, ttl, now), other, later) == Lookup(buffer, other, later)
  {
  }
}
