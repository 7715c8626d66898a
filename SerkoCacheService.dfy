/** The cache facade of the Serko.Cache.MultiLevel library. Calls into the cache stack
    run through a circuit breaker that wraps the retry policy; on any failure the facade
    falls back to its store buffer and then to the caller's value factory. */
module SerkoCacheService {
  import opened CacheTypes
  import opened StoreBuffer
  import opened Resilience
  import opened Facade

  /** The options the facade reads; durations in whole seconds. The store-buffer time to
      live is always given, since every buffer write uses it. */
  datatype CacheOptions = CacheOptions(keyPrefix: string, timeToLiveDefault: nat,
                                       staleAfterDefault: Option<nat>, storeBufferDefault: Ttl)

  class CacheService<T> {
    const options: CacheOptions
    /** The process-local store buffer (the injected memory cache). */
    var memCache: Buffer<T>

    constructor (options: CacheOptions, memCache: Buffer<T>)
      ensures this.options == options && this.memCache == memCache
    {
      this.options := options;
      this.memCache := memCache;
    }

    /** The configured default time to live and stale-after, as stack settings. */
    function GetCacheSettingsDefault(): (settings: CacheSettings)
      ensures settings.timeToLive == options.timeToLiveDefault
      ensures settings.staleAfter == options.staleAfterDefault
    {
      CacheSettings(options.timeToLiveDefault, options.staleAfterDefault)
    }

    /** Evict the namespaced key from the stack through the breaker-over-retry policy.
        The buffer is outside this method's frame, and failures propagate. */
    method EvictAsync(cacheKey: string, circuit: CircuitState, evict: nat -> Outcome<()>)
      returns (result: Outcome<()>, calls: seq<Call<T>>)
      ensures EvictRun(result, calls) == EvictCalls(BreakerOverRetry(circuit), options.keyPrefix, cacheKey, evict)
    {
      var key := CreateCacheKey(options.keyPrefix, cacheKey);
      var attempts: nat, delays: seq<nat>;
      result, attempts, delays := ExecuteAsync(BreakerOverRetry(circuit), evict);
      calls := PolicyCalls(Call<T>.StackEvict(key), PolicyRun(result, attempts, delays));
    }

    /** Get the value for `cacheKey` through the breaker-over-retry policy, writing it
        through to the buffer; on any failure return the buffered value, or else call the
        value factory directly and buffer its value. `circuit` is the breaker's state when
        the call starts, `stack(n)` the stack's outcome on attempt n, `now` the clock. */
    method GetOrSetAsync(cacheKey: string, valueFactory: Option<T> -> Outcome<T>, settings: CacheSettings,
                         circuit: CircuitState, stack: nat -> Outcome<T>, now: nat)
      returns (result: Outcome<T>, calls: seq<Call<T>>)
      modifies this`memCache
      ensures var run := GetOrSetRun(BreakerOverRetry(circuit), options.keyPrefix, cacheKey, settings, stack,
                                     valueFactory, old(memCache), options.storeBufferDefault, now);
              result == run.result && calls == run.calls && memCache == run.buffer
    {
      var key := CreateCacheKey(options.keyPrefix, cacheKey);
      var outcome, attempts, delays := ExecuteAsync(BreakerOverRetry(circuit), stack);
      calls := PolicyCalls(Call<T>.StackGetOrSet(key, settings), PolicyRun(outcome, attempts, delays));
      var t := now + Sum(delays);
      if outcome.Ok? {
        memCache := Store(memCache, key, outcome.value, options.storeBufferDefault, t);
        calls := calls + [BufferSet(key, outcome.value, options.storeBufferDefault)];
        return outcome, calls;
      }
      var storeValue := Lookup(memCache, key, t);
      calls := calls + [BufferGet(key)];
      if storeValue.Some? {
        return Ok(storeValue.value), calls;
      }
      calls := calls + [DirectFetch(None)];
      result := valueFactory(None);
      if result.Ok? {
        memCache := Store(memCache, key, result.value, options.storeBufferDefault, t);
        calls := calls + [BufferSet(key, result.value, options.storeBufferDefault)];
      }
    }
  }
}
