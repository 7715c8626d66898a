# Multi-level cache facade — a Dafny model

This project models the cache facade of the multilevelcache repository, which exists in two
variants. `Serko.Cache.MultiLevel`'s `CacheService` is the library facade. `MultiLevelCacheApi`'s
`CacheService` is the facade inside the API. The project also models the API's exchange-rate
controller, which reads its rates through the facade.

A facade `GetOrSetAsync` call does four things:

1. It builds the namespaced key `KeyPrefix + cacheKey`.
2. It runs the cache stack's get-or-set on that key through a resilience policy. The policy
   retries `RedisException` and `RedisTimeoutException` up to 3 times, waiting 2, 4 and 8
   seconds. In the library variant, a circuit breaker wraps the retry.
3. On success it writes the value to the process-local store buffer under the same key, then
   returns it.
4. On any exception it returns the buffered value if that entry is still fresh. Otherwise it
   calls the value factory once with the default previous value, buffers that value and
   returns it. An exception from that direct call propagates.

`EvictAsync` forwards the namespaced key to the stack's evict through the same policy. It has no
handler and never touches the buffer.

How the model is built:

- **Cache stack.** The stack is an oracle `stack: nat -> Outcome<T>`, giving the outcome of
  attempt n (a value, a Redis exception, a Redis timeout or any other exception).
- **Value factory.** The value factory is `Option<T> -> Outcome<T>`. `None` is C#'s `default`.
- **Circuit breaker.** The breaker is the gate one call finds: `Closed`, `Open` or `HalfOpen`.
  An open circuit rejects with `BrokenCircuitException` and invokes nothing. The constructor's
  breaker parameters are constants in `Resilience`: failure threshold 0.1, sampling window
  15 minutes, minimum throughput 100, break duration 5 minutes.
- **Store buffer.** The buffer is a map from key to value and absolute expiry, read against an
  explicit clock.
- **Clock within a call.** Time inside a call advances only through the back-off waits. The
  buffer write or lookup after the policy therefore happens at `now + Sum(delays)`.
- **Call trace.** Each operation returns its `calls`: the ordered stack, wait, buffer and
  value-factory interactions. This lets the contracts say which key each collaborator saw, and
  how often the value factory ran.
- **Shared definitions.** `Facade.GetOrSetRun` and `Facade.EvictCalls` define one call of
  either variant. Each variant's class methods are proved equal to them, the library variant
  with `BreakerOverRetry(circuit)` and the API variant with `RetryOnly`. The lemmas about
  these functions therefore hold for both variants.

The model follows the code:

- No settings validation happens, so there is no validation error.
- The buffer is written on every success, with no switch that disables it.
- "3 retries" means four attempts in total.
- Evicting leaves the buffer alone.

## Model

| member | source | states |
|---|---|---|
| Resilience.RetryAsync | src/MultiLevelCache/Serko.Cache.MultiLevel/Services/CacheService.cs:38-48 | the retry loop (invoke; while a Redis failure and retries remain, wait the back-off and invoke again) yields exactly the outcome, attempt count and waits of the retry specification `Retry` |
| Resilience.ExecuteAsync | src/MultiLevelCache/Serko.Cache.MultiLevel/Services/CacheService.cs:50-72 | one policy execution equals `Execute`: an open breaker rejects without invoking the action, otherwise the retry policy runs |
| Resilience.RetryFromSettles | src/MultiLevelCache/Serko.Cache.MultiLevel/Services/CacheService.cs:38-43 | from attempt n the policy stops at the first outcome that is not a Redis failure or when retries run out, returns that outcome, and waits 2^(m+1) seconds before attempt m+1 |
| Resilience.RetryCharacterization | src/MultiLevelCache/Serko.Cache.MultiLevel/Services/CacheService.cs:38-43 | 1 to 4 attempts; all but the last failed with a Redis exception; the result is the last attempt's outcome; fewer than 4 attempts means the last outcome was not a Redis failure; the waits are a prefix of [2, 4, 8] |
| Resilience.BackoffSchedule | src/MultiLevelCache/Serko.Cache.MultiLevel/Services/CacheService.cs:43 | the waits before retries 1, 2, 3 are 2, 4, 8 seconds and each wait doubles the previous one |
| Resilience.UnhandledNotRetried | src/MultiLevelCache/Serko.Cache.MultiLevel/Services/CacheService.cs:38-40 | an exception other than the two Redis ones ends the execution at the attempt that raised it, with that exception as the outcome |
| Resilience.BreakerFailureMeansRetriesExhausted | src/MultiLevelCache/Serko.Cache.MultiLevel/Services/CacheService.cs:50-57 | the breaker records a failure exactly when all four attempts failed with Redis exceptions; other exceptions are never recorded |
| Resilience.ExecuteGate | src/MultiLevelCache/Serko.Cache.MultiLevel/Services/CacheService.cs:72 | the action is invoked at least once unless the circuit is open; an open circuit fails with BrokenCircuitException after no waits; otherwise the breaker adds nothing to the retry policy |
| StoreBuffer.LookupAfterStore | src/MultiLevelCache/Serko.Cache.MultiLevel/Services/CacheService.cs:96-106 | a buffered value is found again until its time to live has passed and is missed after that |
| StoreBuffer.StoreKeepsOtherKeys | src/MultiLevelCache/Serko.Cache.MultiLevel/Services/CacheService.cs:112 | a buffer write under one key leaves every other key's lookup unchanged |
| Facade.CreateCacheKey | src/MultiLevelCache/Serko.Cache.MultiLevel/Services/CacheService.cs:118-121 | the namespaced key is the prefix followed by the logical key |
| Facade.CreateCacheKeyInjective | src/MultiLevelCache/Serko.Cache.MultiLevel/Services/CacheService.cs:118-121 | under one prefix two logical keys share a namespaced key only if they are equal; an empty prefix leaves the key unchanged |
| Facade.GetOrSetKeys | src/MultiLevelCache/Serko.Cache.MultiLevel/Services/CacheService.cs:93-112 | every stack and buffer call of one GetOrSet uses `KeyPrefix + cacheKey`, every stack call passes the caller's settings, and no other buffer key is added, removed or changed |
| Facade.WriteThroughOnSuccess | src/MultiLevelCache/Serko.Cache.MultiLevel/Services/CacheService.cs:93-98 | on policy success the result is the stack's value, the buffer maps the namespaced key to it with the buffer TTL counted from the write, that write is the call's only buffer write and its last step, and the value factory is not called directly |
| Facade.BufferServesFailure | src/MultiLevelCache/Serko.Cache.MultiLevel/Services/CacheService.cs:100-107 | when the policy throws anything and the buffer holds a fresh entry, that value is returned, the buffer is unchanged and the value factory is not called directly |
| Facade.DirectFetchOnMiss | src/MultiLevelCache/Serko.Cache.MultiLevel/Services/CacheService.cs:108-114 | when the policy throws and the buffer misses, the buffer lookup is followed by exactly one direct value-factory call with the default previous value; its value is buffered and returned, and its exception propagates with the buffer unchanged |
| Facade.DirectFetchIffMiss | src/MultiLevelCache/Serko.Cache.MultiLevel/Services/CacheService.cs:89-116 | the value factory is called directly once if the policy failed and the buffer missed, and otherwise not at all |
| Facade.StackCallsPerAttempt | src/MultiLevelCache/Serko.Cache.MultiLevel/Services/CacheService.cs:93-95 | the stack is called once per policy attempt, at most four times, never when the circuit is open; without a breaker the first call always goes to the stack |
| Facade.UnhandledFailureFallsBack | src/MultiLevelCache/Serko.Cache.MultiLevel/Services/CacheService.cs:35-40 | an unhandled failure on the first attempt, such as the value factory failing inside the stack, is not retried: one stack call, then the fallback, which calls the value factory a second time on a buffer miss |
| Facade.OpenCircuitFallsBack | src/MultiLevelCache/Serko.Cache.MultiLevel/Services/CacheService.cs:100-114 | with the circuit open the call is exactly the fallback, with no stack call and no wait |
| Facade.EvictOnlyForwards | src/MultiLevelCache/Serko.Cache.MultiLevel/Services/CacheService.cs:81-87 | evict calls only the stack's evict on the namespaced key, once per attempt, and the back-off waits; it calls neither the buffer nor the value factory, and the policy's outcome, failure included, is its result |
| Facade.TwoTimeoutsThenValue | src/MultiLevelCache/MultiLevelCacheApi/Services/CacheService.cs:63-72 | two timeouts followed by a value: three stack calls, the value is returned and buffered 6 seconds after the call began, and there is no direct fetch |
| Facade.OutageServedFromBuffer | src/MultiLevelCache/Serko.Cache.MultiLevel/Services/CacheService.cs:100-114 | while the shared tier keeps failing, the first call fetches directly; a later call within the buffer TTL is served from the buffer with no fetch, and one after it fetches again |
| SerkoCacheService.CacheService.constructor | src/MultiLevelCache/Serko.Cache.MultiLevel/Services/CacheService.cs:27-33 | the service keeps the options and the injected buffer |
| SerkoCacheService.CacheService.GetCacheSettingsDefault | src/MultiLevelCache/Serko.Cache.MultiLevel/Services/CacheService.cs:76-79 | the default settings are the configured time to live and the configured, possibly absent, stale-after |
| SerkoCacheService.CacheService.EvictAsync | src/MultiLevelCache/Serko.Cache.MultiLevel/Services/CacheService.cs:81-87 | evict runs breaker-over-retry on the namespaced key as `EvictCalls` says; the buffer is outside its frame |
| SerkoCacheService.CacheService.GetOrSetAsync | src/MultiLevelCache/Serko.Cache.MultiLevel/Services/CacheService.cs:89-116 | result, calls and new buffer are those of `GetOrSetRun` with the breaker-over-retry policy |
| ApiCacheService.CacheService.constructor | src/MultiLevelCache/MultiLevelCacheApi/Services/CacheService.cs:26-33 | the service keeps the options, the buffer TTL and the injected buffer |
| ApiCacheService.CacheService.GetCacheSettingsDefault | src/MultiLevelCache/MultiLevelCacheApi/Services/CacheService.cs:50-53 | the default settings are the configured time to live and the configured stale-after, which is always present |
| ApiCacheService.CacheService.EvictAsync | src/MultiLevelCache/MultiLevelCacheApi/Services/CacheService.cs:55-61 | evict runs the retry policy alone on the namespaced key as `EvictCalls` says; the buffer is outside its frame |
| ApiCacheService.CacheService.GetOrSetAsync | src/MultiLevelCache/MultiLevelCacheApi/Services/CacheService.cs:63-90 | result, calls and new buffer are those of `GetOrSetRun` with the retry-only policy |
| ExRate.GetExRateConversion | src/MultiLevelCache/MultiLevelCacheApi/Controllers/ExRateController.cs:90-103 | a missing source currency raises ArgumentOutOfRangeException naming fromCurrency, checked first; a missing target raises it naming toCurrency; a null dictionary raises a null reference and a zero source rate a division by zero; otherwise the result times the source rate is the target rate |
| ExRate.ConversionInverse | src/MultiLevelCache/MultiLevelCacheApi/Controllers/ExRateController.cs:102 | a currency converts to itself at 1, and converting there and back multiplies to 1 |
| ExRate.ConversionChain | src/MultiLevelCache/MultiLevelCacheApi/Controllers/ExRateController.cs:102 | converting a to b and then b to c equals converting a to c |
| ExRate.ExRateResponseCases | src/MultiLevelCache/MultiLevelCacheApi/Controllers/ExRateController.cs:26-38 | with rates, the reply is Ok(conversion) exactly when both codes are known with a non-zero source rate, and BadRequest("An invalid currency code was supplied") exactly when a code is unknown; every other exception, null rates included, propagates |
| ExRate.FetchExRate | src/MultiLevelCache/MultiLevelCacheApi/Controllers/ExRateController.cs:56-80 | the fetched rates, or the previous rates unchanged when fetching or parsing throws |
| ExRate.RatesFactoryNeverThrows | src/MultiLevelCache/MultiLevelCacheApi/Controllers/ExRateController.cs:45-48 | the controller's value factory never throws, and called with the default it yields the fetched rates or null |
| ExRate.OutageWithVendorFailure | src/MultiLevelCache/MultiLevelCacheApi/Controllers/ExRateController.cs:26-80 | during an outage, with nothing buffered and the vendor call failing, the facade buffers and returns null rates and the endpoint fails with a null reference |
| ExRate.ExRateController.constructor | src/MultiLevelCache/MultiLevelCacheApi/Controllers/ExRateController.cs:19-23 | the controller keeps the injected cache service |
| ExRate.ExRateController.GetOrSetExRate | src/MultiLevelCache/MultiLevelCacheApi/Controllers/ExRateController.cs:43-51 | rates come from the facade under the given logical key, with the facade's default settings and the vendor-backed value factory |
| ExRate.ExRateController.GetExRateAsync | src/MultiLevelCache/MultiLevelCacheApi/Controllers/ExRateController.cs:25-38 | the reply is `ExRateResponse` of the facade run for logical key "USD" with default settings, and the buffer is that run's |

## Left out

- Cache stack internals (memory and Redis layers, distributed locking, remote eviction, stale-while-revalidate, cleanup): it is an external library, modelled only by its per-attempt outcomes; no single-flight or staleness property is claimed.
- Circuit breaker statistics and state changes (rolling window, opening, half-open trial, reset): they are library internals; the model takes the state one call finds as a parameter, and keeps the thresholds as constants only.
- Asynchrony, actual sleeping, and the time the stack or the value factory take: the back-off waits are values, and the clock advances only by them.
- Concurrent callers and cancellation: the model is one sequential caller.
- Logging, dependency-injection and connection wiring, console and HTTP plumbing: not part of the behaviour modelled.
- Memory-cache internals: size limits and expiry scanning are not modelled. The buffer time to live is a positive `StoreBuffer.Ttl`, so the ArgumentOutOfRangeException the memory cache raises for a non-positive TTL cannot arise in the model. The buffer holds values of one type, so a lookup that finds a value of another type is not modelled.
- StoreBufferDefault: the option is nullable in the library and missing from the API's options. Every buffer write uses it, so the model takes a concrete TTL.
- The vendor call and JSON parsing in FetchExRateAsync: a foreign library; its outcome is a parameter.
- ExRate.GetExRateConversion: divides exact reals, not decimals, so rounding and overflow of the quotient are not modelled.
- Null currency codes reaching the dictionary lookups: the model's strings are never null.
- WeatherForecastController, the tests, the exception classes, ICacheService and the options classes: no behaviour beyond data and interfaces.
