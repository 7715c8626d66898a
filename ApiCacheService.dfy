/** The cache facade inside the exchange-rate API. It runs cache-stack calls through the
    retry policy alone, with no circuit breaker, and falls back like the library facade. */
module ApiCacheService {
  import opened CacheTypes
  import opened StoreBuffer
  import opened Resilience
  import opened Facade

  /** The options this variant binds; durations in whole seconds. They carry no
      store-buffer time to live, so the service takes it separately. The connection
      string is only used for wiring and is left out. */
  datatype CacheOptions = CacheOptions(keyPrefix: string, timeToLiveDefault: nat, staleAfterDefault: nat)

  class CacheService<T> {
    const options: CacheOptions
    /** The time to live of every store-buffer write. */
    const storeBufferDefault: Ttl
    /** The process-local store buffer (the injected memory cache). */
    var memCache: Buffer<T>

    constructor (options: CacheOptions, storeBufferDefault: Ttl, memCache: Buffer<T>)
      ensures this.options == options && this.storeBufferDefault == storeBufferDefault
      ensures this.memCache == memCache
    {
      this.options := options;
      this.storeBufferDefault := storeBufferDefault;
      this.memCache := memCache;
    }

    /** The configured defaults as stack settings; the stale-after option is not nullable
        here, so the settings always carry one. */
    function GetCacheSettingsDefault(): (settings: CacheSettings)
      ensures settings.timeToLive == options.timeToLiveDefault
      ensures settings.staleAfter == Some(options.staleAfterDefault)
    {
      CacheSettings(options.timeToLiveDefault, Some(options.staleAfterDefault))
    }

    /** Evict the namespaced key from the stack through the retry policy. The buffer is
        outside this method's frame, and failures propagate. */
    method EvictAsync(cacheKey: string, evict: nat -> Outcome<()>)
      returns (result: Outcome<()>, calls: seq<Call<T>>)
      ensures EvictRun(result, calls) == EvictCalls(RetryOnly, options.keyPrefix, cacheKey, evict)
    {
      var key := CreateCacheKey(options.keyPrefix, cacheKey);
      var attempts: nat, delays: seq<nat>;
      result, attempts, delays := RetryAsync(evict);
      calls := PolicyCalls(Call<T>.StackEvict(key), PolicyRun(result, attempts, delays));
    }

    /** Get the value for `cacheKey` through the retry policy, writing it through to the
        buffer; on any failure return the buffered value, or else call the value factory
        directly and buffer its value. `stack(n)` is the stack's outcome on attempt n and
        `now` the clock when the call starts. */
    method GetOrSetAsync(cacheKey: string, valueFactory: Option<T> -> Outcome<T>, settings: CacheSettings,
                         stack: nat -> Outcome<T>, now: nat)
      returns (result: Outcome<T>, calls: seq<Call<T>>)
      modifies this`memCache
      ensures var run := GetOrSetRun(RetryOnly, options.keyPrefix, cacheKey, settings, stack,
                                     valueFactory, old(memCache), storeBufferDefault, now);
              result == run.result && calls == run.calls && memCache == run.buffer
    {
      var key := CreateCacheKey(options.keyPrefix, cacheKey);
      var outcome, attempts, delays := RetryAsync(stack);
      calls := PolicyCalls(Call<T>.StackGetOrSet(key, settings), PolicyRun(outcome, attempts, delays));
      var t := now + Sum(delays);
      if outcome.Ok? {
        memCache := Store(memCache, key, outcome.value, storeBufferDefault, t);
        calls := calls + [BufferSet(key, outcome.value, storeBufferDefault)];
        return outcome, calls;
      }
      var storeValue := Lookup(memCache, key, t);
      calls := calls + [BufferGet(key)];
      if storeValue.Some? {
        return Ok(storeValue.value), calls;
      }
      calls := calls + [DirectFetch(None)];
      result := valueFactory(None);
      if result.Ok? {
        memCache := Store(memCache, key, result.value, storeBufferDefault, t);
        calls := calls + [BufferSet(key, result.value, storeBufferDefault)];
      }
    }
  }
}
