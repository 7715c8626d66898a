/** What one GetOrSet or Evict call on a cache facade does, as a function of the facade's
    configuration, the buffer it finds, the clock, and the outcomes its collaborators
    produce. Both facade variants are proved to behave exactly like these functions; they
    differ only in the policy they pass. */
module Facade {
  import opened CacheTypes
  import opened StoreBuffer
  import opened Resilience

  /** The namespaced key: the configured prefix followed by the logical key. */
  function CreateCacheKey(keyPrefix: string, cacheKey: string): (key: string)
    ensures |key| == |keyPrefix| + |cacheKey|
    ensures key[..|keyPrefix|] == keyPrefix && key[|keyPrefix|..] == cacheKey
  {
    keyPrefix + cacheKey
  }

  /** Under one prefix, distinct logical keys never share a namespaced key, and an empty
      prefix leaves keys as they are. */
  lemma CreateCacheKeyInjective(keyPrefix: string, a: string, b: string)
    ensures CreateCacheKey(keyPrefix, a) == CreateCacheKey(keyPrefix, b) <==> a == b
    ensures CreateCacheKey("", a) == a
  {
    if CreateCacheKey(keyPrefix, a) == CreateCacheKey(keyPrefix, b) {
      assert a == CreateCacheKey(keyPrefix, a)[|keyPrefix|..];
    }
  }

  /** The calls a policy execution makes: each attempt invokes `invoke`, and each retry is
      preceded by its back-off wait. */
  function AttemptCalls<T>(invoke: Call<T>, delays: seq<nat>): seq<Call<T>>
  {
    if delays == [] then [invoke]
    else [invoke, Sleep(delays[0])] + AttemptCalls(invoke, delays[1..])
  }

  function PolicyCalls<T, U>(invoke: Call<T>, run: PolicyRun<U>): seq<Call<T>>
  {
    if run.attempts == 0 then [] else AttemptCalls(invoke, run.delays)
  }

  /** The attempt calls alternate `invoke` and waits, starting and ending with `invoke`. */
  lemma {:induction false} AttemptCallsShape<T>(invoke: Call<T>, delays: seq<nat>)
    ensures |AttemptCalls(invoke, delays)| == 2 * |delays| + 1
    ensures forall i :: 0 <= i < |AttemptCalls(invoke, delays)| ==>
              AttemptCalls(invoke, delays)[i] == if i % 2 == 0 then invoke else Sleep(delays[i / 2])
    decreases |delays|
  {
    if delays != [] {
      AttemptCallsShape(invoke, delays[1..]);
      var cs := AttemptCalls(invoke, delays);
      var rest := AttemptCalls(invoke, delays[1..]);
      assert cs == [invoke, Sleep(delays[0])] + rest;
      forall i | 0 <= i < |cs|
        ensures cs[i] == if i % 2 == 0 then invoke else Sleep(delays[i / 2])
      {
        if i >= 2 {
          assert cs[i] == rest[i - 2];
          assert (i - 2) / 2 == i / 2 - 1;
          assert (i - 2) % 2 == i % 2;
        }
      }
    }
  }

  /** Counting over the attempt calls: `invoke` once per attempt, the waits never. */
  lemma {:induction false} AttemptCallsCount<T>(invoke: Call<T>, delays: seq<nat>, p: Call<T> -> bool)
    requires forall d :: !p(Sleep(d))
    ensures CountWhere(AttemptCalls(invoke, delays), p) == if p(invoke) then |delays| + 1 else 0
    decreases |delays|
  {
    if delays == [] {
      assert CountWhere([invoke], p) == (if p(invoke) then 1 else 0) + CountWhere([invoke][1..], p);
    } else {
      var rest := AttemptCalls(invoke, delays[1..]);
      AttemptCallsCount(invoke, delays[1..], p);
      CountWhereAppend([invoke, Sleep(delays[0])], rest, p);
      assert [invoke, Sleep(delays[0])][1..] == [Sleep(delays[0])];
      assert [Call<T>.Sleep(delays[0])][1..] == [];
    }
  }

  /** The buffer, result and calls after one facade call. */
  datatype Run<T> = Run(result: Outcome<T>, buffer: Buffer<T>, calls: seq<Call<T>>)

  /** The catch block: the buffered value while it is fresh, otherwise one direct call of
      the value factory with the default previous value, whose value is buffered before it
      is returned and whose exception propagates. */
  function Fallback<T>(key: string, valueFactory: Option<T> -> Outcome<T>, buffer: Buffer<T>,
                       bufferTtl: Ttl, now: nat, calls: seq<Call<T>>): Run<T>
  {
    match Lookup(buffer, key, now)
    case Some(storeValue) => Run(Ok(storeValue), buffer, calls + [BufferGet(key)])
    case None =>
      var fetching := calls + [BufferGet(key), DirectFetch(None)];
      match valueFactory(None)
      case Ok(v) => Run(Ok(v), Store(buffer, key, v, bufferTtl, now), fetching + [BufferSet(key, v, bufferTtl)])
      case Err(e) => Run(Err(e), buffer, fetching)
  }

  /** GetOrSetAsync: run the stack's get-or-set on the namespaced key through the policy;
      on success write the value through to the buffer and return it; on any exception
      fall back. `stack(n)` is the stack's outcome on attempt n; the clock reads `now` when
      the call starts and advances by the back-off waits. */
  function GetOrSetRun<T>(policy: Policy, keyPrefix: string, cacheKey: string, settings: CacheSettings,
                          stack: nat -> Outcome<T>, valueFactory: Option<T> -> Outcome<T>,
                          buffer: Buffer<T>, bufferTtl: Ttl, now: nat): Run<T>
  {
    var key := CreateCacheKey(keyPrefix, cacheKey);
    var p := Execute(policy, stack);
    var primary := PolicyCalls(Call<T>.StackGetOrSet(key, settings), p);
    var t := now + Sum(p.delays);
    match p.outcome
    case Ok(v) => Run(Ok(v), Store(buffer, key, v, bufferTtl, t), primary + [BufferSet(key, v, bufferTtl)])
    case Err(_) => Fallback(key, valueFactory, buffer, bufferTtl, t, primary)
  }

  /** The result and calls of one EvictAsync call. */
  datatype EvictRun<T> = EvictRun(result: Outcome<()>, calls: seq<Call<T>>)

  /** EvictAsync: the stack's evict on the namespaced key through the policy, with no
      handler, so the policy's outcome is the call's. */
  function EvictCalls<T>(policy: Policy, keyPrefix: string, cacheKey: string, evict: nat -> Outcome<()>): EvictRun<T>
  {
    var p := Execute(policy, evict);
    EvictRun(p.outcome, PolicyCalls(StackEvict(CreateCacheKey(keyPrefix, cacheKey)), p))
  }

  predicate IsDirectFetch<T>(c: Call<T>) { c.DirectFetch? }
  predicate IsStackGetOrSet<T>(c: Call<T>) { c.StackGetOrSet? }
  predicate IsBufferSet<T>(c: Call<T>) { c.BufferSet? }
  predicate IsBufferAccess<T>(c: Call<T>) { c.BufferGet? || c.BufferSet? }

  /** Facts about the policy part of a run that the lemmas below share. */
  lemma PolicyCallsFacts<T, U>(invoke: Call<T>, run: PolicyRun<U>, policy: Policy, op: nat -> Outcome<U>)
    requires run == Execute(policy, op)
    ensures run.attempts == 0 ==> PolicyCalls(invoke, run) == [] && run.delays == []
    ensures run.attempts > 0 ==> |run.delays| == run.attempts - 1
    ensures forall i :: 0 <= i < |PolicyCalls(invoke, run)| ==>
              PolicyCalls(invoke, run)[i] == invoke || PolicyCalls(invoke, run)[i].Sleep?
    ensures forall p: Call<T> -> bool :: (forall d :: !p(Sleep(d))) ==>
              CountWhere(PolicyCalls(invoke, run), p) == if p(invoke) then run.attempts else 0
  {
    ExecuteGate(policy, op);
    RetryCharacterization(op);
    if run.attempts > 0 {
      AttemptCallsShape(invoke, run.delays);
      forall p: Call<T> -> bool | (forall d :: !p(Sleep(d)))
        ensures CountWhere(PolicyCalls(invoke, run), p) == if p(invoke) then run.attempts else 0
      {
        AttemptCallsCount(invoke, run.delays, p);
      }
    }
  }

  /** Key namespacing: every stack and buffer call of a GetOrSet uses the namespaced key,
      every stack call passes the caller's settings, and no other buffer key changes. */
  lemma GetOrSetKeys<T>(policy: Policy, keyPrefix: string, cacheKey: string, settings: CacheSettings,
                        stack: nat -> Outcome<T>, valueFactory: Option<T> -> Outcome<T>,
                        buffer: Buffer<T>, bufferTtl: Ttl, now: nat)
    ensures var run := GetOrSetRun(policy, keyPrefix, cacheKey, settings, stack, valueFactory, buffer, bufferTtl, now);
            && (forall i :: 0 <= i < |run.calls| && run.calls[i].HasKey() ==> run.calls[i].key == keyPrefix + cacheKey)
            && (forall i :: 0 <= i < |run.calls| && run.calls[i].StackGetOrSet? ==> run.calls[i].settings == settings)
            && (forall k :: k != keyPrefix + cacheKey ==> (k in run.buffer <==> k in buffer))
            && (forall k :: k != keyPrefix + cacheKey && k in buffer ==> run.buffer[k] == buffer[k])
  {
    var key := CreateCacheKey(keyPrefix, cacheKey);
    var p := Execute(policy, stack);
    var invoke := Call<T>.StackGetOrSet(key, settings);
    PolicyCallsFacts(invoke, p, policy, stack);
    var tail := FallbackTail(policy, keyPrefix, cacheKey, settings, stack, valueFactory, buffer, bufferTtl, now);
    var run := GetOrSetRun(policy, keyPrefix, cacheKey, settings, stack, valueFactory, buffer, bufferTtl, now);
    var primary := PolicyCalls(invoke, p);
    forall i | 0 <= i < |run.calls|
      ensures run.calls[i].HasKey() ==> run.calls[i].key == key
      ensures run.calls[i].StackGetOrSet? ==> run.calls[i].settings == settings
    {
      if i < |primary| {
        assert run.calls[i] == primary[i];
      } else {
        assert run.calls[i] == tail[i - |primary|];
      }
    }
  }

  /** Write-through: when the policy succeeds the result is the stack's value, the buffer
      maps the namespaced key to it for the buffer's time to live from the moment of the
      write, nothing else changes, the only buffer write is that one, and the value factory
      is not called directly. */
  lemma WriteThroughOnSuccess<T>(policy: Policy, keyPrefix: string, cacheKey: string, settings: CacheSettings,
                                 stack: nat -> Outcome<T>, valueFactory: Option<T> -> Outcome<T>,
                                 buffer: Buffer<T>, bufferTtl: Ttl, now: nat)
    requires Execute(policy, stack).outcome.Ok?
    ensures var p := Execute(policy, stack);
            var run := GetOrSetRun(policy, keyPrefix, cacheKey, settings, stack, valueFactory, buffer, bufferTtl, now);
            && run.result == p.outcome
            && run.buffer == buffer[keyPrefix + cacheKey := BufferEntry(p.outcome.value, now + Sum(p.delays) + bufferTtl)]
            && CountWhere(run.calls, IsBufferSet) == 1
            && run.calls[|run.calls| - 1] == BufferSet(keyPrefix + cacheKey, p.outcome.value, bufferTtl)
            && CountWhere(run.calls, IsDirectFetch) == 0
  {
    var key := CreateCacheKey(keyPrefix, cacheKey);
    var p := Execute(policy, stack);
    var primary := PolicyCalls(Call<T>.StackGetOrSet(key, settings), p);
    var v := p.outcome.value;
    PolicyCallsFacts(Call<T>.StackGetOrSet(key, settings), p, policy, stack);
    assert CountWhere(primary, IsBufferSet) == 0;
    assert CountWhere(primary, IsDirectFetch) == 0;
    CountWhereAppend(primary, [BufferSet(key, v, bufferTtl)], IsBufferSet<T>);
    CountWhereAppend(primary, [BufferSet(key, v, bufferTtl)], IsDirectFetch<T>);
  }

  /** Containment: when the policy throws anything and the buffer holds a fresh entry for
      the namespaced key, that entry's value is returned, the buffer is unchanged, and the
      value factory is never called directly. */
  lemma BufferServesFailure<T>(policy: Policy, keyPrefix: string, cacheKey: string, settings: CacheSettings,
                               stack: nat -> Outcome<T>, valueFactory: Option<T> -> Outcome<T>,
                               buffer: Buffer<T>, bufferTtl: Ttl, now: nat)
    requires Execute(policy, stack).outcome.Err?
    requires Lookup(buffer, keyPrefix + cacheKey, now + Sum(Execute(policy, stack).delays)).Some?
    ensures var p := Execute(policy, stack);
            var run := GetOrSetRun(policy, keyPrefix, cacheKey, settings, stack, valueFactory, buffer, bufferTtl, now);
            && run.result == Ok(buffer[keyPrefix + cacheKey].value)
            && run.buffer == buffer
            && CountWhere(run.calls, IsDirectFetch) == 0
            && CountWhere(run.calls, IsBufferSet) == 0
  {
    var key := CreateCacheKey(keyPrefix, cacheKey);
    var p := Execute(policy, stack);
    var primary := PolicyCalls(Call<T>.StackGetOrSet(key, settings), p);
    PolicyCallsFacts(Call<T>.StackGetOrSet(key, settings), p, policy, stack);
    CountWhereAppend(primary, [BufferGet(key)], IsDirectFetch<T>);
    CountWhereAppend(primary, [BufferGet(key)], IsBufferSet<T>);
  }

  /** Last resort: when the policy throws and the buffer misses, the value factory is
      called directly exactly once, with the default previous value, after the buffer
      lookup; its value is buffered under the namespaced key and returned, and its
      exception propagates with the buffer unchanged. */
  lemma DirectFetchOnMiss<T>(policy: Policy, keyPrefix: string, cacheKey: string, settings: CacheSettings,
                             stack: nat -> Outcome<T>, valueFactory: Option<T> -> Outcome<T>,
                             buffer: Buffer<T>, bufferTtl: Ttl, now: nat)
    requires Execute(policy, stack).outcome.Err?
    requires Lookup(buffer, keyPrefix + cacheKey, now + Sum(Execute(policy, stack).delays)).None?
    ensures var p := Execute(policy, stack);
            var t := now + Sum(p.delays);
            var run := GetOrSetRun(policy, keyPrefix, cacheKey, settings, stack, valueFactory, buffer, bufferTtl, now);
            var n := |PolicyCalls(Call<T>.StackGetOrSet(keyPrefix + cacheKey, settings), p)|;
            && run.result == valueFactory(None)
            && CountWhere(run.calls, IsDirectFetch) == 1
            && run.calls[n] == BufferGet(keyPrefix + cacheKey)
            && run.calls[n + 1] == DirectFetch(None)
            && (run.result.Ok? ==> run.buffer == buffer[keyPrefix + cacheKey := BufferEntry(run.result.value, t + bufferTtl)])
            && (run.result.Err? ==> run.buffer == buffer)
  {
    var key := CreateCacheKey(keyPrefix, cacheKey);
    var p := Execute(policy, stack);
    var primary := PolicyCalls(Call<T>.StackGetOrSet(key, settings), p);
    PolicyCallsFacts(Call<T>.StackGetOrSet(key, settings), p, policy, stack);
    assert CountWhere(primary, IsDirectFetch<T>) == 0;
    FallbackMiss(key, valueFactory, buffer, bufferTtl, now + Sum(p.delays), primary);
  }

  /** The catch block after a buffer miss, following calls without a direct fetch. */
  lemma FallbackMiss<T>(key: string, valueFactory: Option<T> -> Outcome<T>, buffer: Buffer<T>,
                        bufferTtl: Ttl, now: nat, calls: seq<Call<T>>)
    requires Lookup(buffer, key, now).None?
    requires CountWhere(calls, IsDirectFetch<T>) == 0
    ensures var run := Fallback(key, valueFactory, buffer, bufferTtl, now, calls);
            && run.result == valueFactory(None)
            && CountWhere(run.calls, IsDirectFetch) == 1
            && run.calls[|calls|] == BufferGet(key)
            && run.calls[|calls| + 1] == DirectFetch(None)
            && (run.result.Ok? ==> run.buffer == buffer[key := BufferEntry(run.result.value, now + bufferTtl)])
            && (run.result.Err? ==> run.buffer == buffer)
  {
    var run := Fallback(key, valueFactory, buffer, bufferTtl, now, calls);
    var fetching := calls + [BufferGet(key), DirectFetch(None)];
    CountWhereAppend(calls, [BufferGet(key), DirectFetch(None)], IsDirectFetch<T>);
    var probe: seq<Call<T>> := [BufferGet(key), DirectFetch(None)];
    assert CountWhere(probe, IsDirectFetch<T>) == 1 by {
      assert probe[1..] == [DirectFetch(None)];
      assert probe[1..][1..] == [];
      assert CountWhere(probe[1..], IsDirectFetch<T>) == 1 + CountWhere(probe[1..][1..], IsDirectFetch<T>);
    }
    if valueFactory(None).Ok? {
      var write := [BufferSet(key, valueFactory(None).value, bufferTtl)];
      assert run.calls == fetching + write;
      CountWhereAppend(fetching, write, IsDirectFetch<T>);
    } else {
      assert run.calls == fetching;
    }
  }

  /** The value factory is called directly exactly when the policy failed and the buffer
      missed, and never more than once per call. */
  lemma DirectFetchIffMiss<T>(policy: Policy, keyPrefix: string, cacheKey: string, settings: CacheSettings,
                              stack: nat -> Outcome<T>, valueFactory: Option<T> -> Outcome<T>,
                              buffer: Buffer<T>, bufferTtl: Ttl, now: nat)
    ensures var p := Execute(policy, stack);
            var run := GetOrSetRun(policy, keyPrefix, cacheKey, settings, stack, valueFactory, buffer, bufferTtl, now);
            CountWhere(run.calls, IsDirectFetch) ==
              if p.outcome.Err? && Lookup(buffer, keyPrefix + cacheKey, now + Sum(p.delays)).None? then 1 else 0
  {
    var p := Execute(policy, stack);
    if p.outcome.Ok? {
      WriteThroughOnSuccess(policy, keyPrefix, cacheKey, settings, stack, valueFactory, buffer, bufferTtl, now);
    } else if Lookup(buffer, keyPrefix + cacheKey, now + Sum(p.delays)).Some? {
      BufferServesFailure(policy, keyPrefix, cacheKey, settings, stack, valueFactory, buffer, bufferTtl, now);
    } else {
      DirectFetchOnMiss(policy, keyPrefix, cacheKey, settings, stack, valueFactory, buffer, bufferTtl, now);
    }
  }

  /** After the policy's own calls, a GetOrSet only touches the buffer and the value
      factory. */
  lemma FallbackTail<T>(policy: Policy, keyPrefix: string, cacheKey: string, settings: CacheSettings,
                        stack: nat -> Outcome<T>, valueFactory: Option<T> -> Outcome<T>,
                        buffer: Buffer<T>, bufferTtl: Ttl, now: nat)
    returns (tail: seq<Call<T>>)
    ensures var run := GetOrSetRun(policy, keyPrefix, cacheKey, settings, stack, valueFactory, buffer, bufferTtl, now);
            var primary := PolicyCalls(Call<T>.StackGetOrSet(keyPrefix + cacheKey, settings), Execute(policy, stack));
            && run.calls == primary + tail
            && (forall i :: 0 <= i < |tail| ==> tail[i].BufferGet? || tail[i].BufferSet? || tail[i].DirectFetch?)
            && (forall i :: 0 <= i < |tail| && tail[i].HasKey() ==> tail[i].key == keyPrefix + cacheKey)
  {
    var key := CreateCacheKey(keyPrefix, cacheKey);
    var p := Execute(policy, stack);
    var t := now + Sum(p.delays);
    if p.outcome.Ok? {
      tail := [BufferSet(key, p.outcome.value, bufferTtl)];
    } else if Lookup(buffer, key, t).Some? {
      tail := [BufferGet(key)];
    } else if valueFactory(None).Ok? {
      tail := [BufferGet(key), DirectFetch(None), BufferSet(key, valueFactory(None).value, bufferTtl)];
    } else {
      tail := [BufferGet(key), DirectFetch(None)];
    }
  }

  /** The stack is called once per policy attempt: one to four times, and never while the
      circuit is open. Under the retry-only policy the first call is always the stack's. */
  lemma StackCallsPerAttempt<T>(policy: Policy, keyPrefix: string, cacheKey: string, settings: CacheSettings,
                                stack: nat -> Outcome<T>, valueFactory: Option<T> -> Outcome<T>,
                                buffer: Buffer<T>, bufferTtl: Ttl, now: nat)
    ensures var p := Execute(policy, stack);
            var run := GetOrSetRun(policy, keyPrefix, cacheKey, settings, stack, valueFactory, buffer, bufferTtl, now);
            && CountWhere(run.calls, IsStackGetOrSet) == p.attempts <= RetryCount + 1
            && (policy == BreakerOverRetry(Open) <==> CountWhere(run.calls, IsStackGetOrSet) == 0)
            && (policy == RetryOnly ==> run.calls[0] == StackGetOrSet(keyPrefix + cacheKey, settings))
  {
    var key := CreateCacheKey(keyPrefix, cacheKey);
    var p := Execute(policy, stack);
    var primary := PolicyCalls(Call<T>.StackGetOrSet(key, settings), p);
    PolicyCallsFacts(Call<T>.StackGetOrSet(key, settings), p, policy, stack);
    ExecuteGate(policy, stack);
    RetryCharacterization(stack);
    var tail := FallbackTail(policy, keyPrefix, cacheKey, settings, stack, valueFactory, buffer, bufferTtl, now);
    CountWhereNone(tail, IsStackGetOrSet<T>);
    CountWhereAppend(primary, tail, IsStackGetOrSet<T>);
    if policy == RetryOnly {
      AttemptCallsShape(Call<T>.StackGetOrSet(key, settings), p.delays);
    }
  }

  /** A failure the policy does not handle on the first attempt (for instance the value
      factory failing inside the stack) is not retried: the stack is called once, then the
      fallback runs, and on a buffer miss the value factory runs a second time, directly. */
  lemma UnhandledFailureFallsBack<T>(policy: Policy, keyPrefix: string, cacheKey: string, settings: CacheSettings,
                                     stack: nat -> Outcome<T>, valueFactory: Option<T> -> Outcome<T>,
                                     buffer: Buffer<T>, bufferTtl: Ttl, now: nat)
    requires policy != BreakerOverRetry(Open)
    requires stack(0).Err? && !IsHandled(stack(0).error)
    ensures var run := GetOrSetRun(policy, keyPrefix, cacheKey, settings, stack, valueFactory, buffer, bufferTtl, now);
            && CountWhere(run.calls, IsStackGetOrSet) == 1
            && run == Fallback(keyPrefix + cacheKey, valueFactory, buffer, bufferTtl, now,
                               [StackGetOrSet(keyPrefix + cacheKey, settings)])
            && (Lookup(buffer, keyPrefix + cacheKey, now).None? ==> CountWhere(run.calls, IsDirectFetch) == 1)
  {
    UnhandledNotRetried(stack, 0);
    ExecuteGate(policy, stack);
    StackCallsPerAttempt(policy, keyPrefix, cacheKey, settings, stack, valueFactory, buffer, bufferTtl, now);
    DirectFetchIffMiss(policy, keyPrefix, cacheKey, settings, stack, valueFactory, buffer, bufferTtl, now);
  }

  /** An open circuit sends the call straight to the fallback, with no stack call and no
      wait. */
  lemma OpenCircuitFallsBack<T>(keyPrefix: string, cacheKey: string, settings: CacheSettings,
                                stack: nat -> Outcome<T>, valueFactory: Option<T> -> Outcome<T>,
                                buffer: Buffer<T>, bufferTtl: Ttl, now: nat)
    ensures GetOrSetRun(BreakerOverRetry(Open), keyPrefix, cacheKey, settings, stack, valueFactory, buffer, bufferTtl, now)
            == Fallback(keyPrefix + cacheKey, valueFactory, buffer, bufferTtl, now, [])
  {
  }

  /** Evict forwards the namespaced key to the stack's evict through the policy and does
      nothing else: no buffer access, no value factory call, and the policy's outcome,
      failure included, is the result. */
  lemma EvictOnlyForwards<T>(policy: Policy, keyPrefix: string, cacheKey: string, evict: nat -> Outcome<()>)
    ensures var p := Execute(policy, evict);
            var run: EvictRun<T> := EvictCalls(policy, keyPrefix, cacheKey, evict);
            && run.result == p.outcome
            && (forall i :: 0 <= i < |run.calls| ==>
                  run.calls[i] == StackEvict(keyPrefix + cacheKey) || run.calls[i].Sleep?)
            && CountWhere(run.calls, IsBufferAccess) == 0
            && CountWhere(run.calls, IsDirectFetch) == 0
            && CountWhere(run.calls, (c: Call<T>) => c.StackEvict?) == p.attempts
  {
    var key := CreateCacheKey(keyPrefix, cacheKey);
    var p := Execute(policy, evict);
    var invoke: Call<T> := StackEvict(key);
    PolicyCallsFacts(invoke, p, policy, evict);
  }
  /** Two transient timeouts and then a value: the stack is called three times, after
      waits of 2 and 4 seconds, the value is returned and buffered six seconds after the
      call began, and the value factory is never called directly. */
  lemma TwoTimeoutsThenValue<T>(policy: Policy, keyPrefix: string, cacheKey: string, settings: CacheSettings,
                                stack: nat -> Outcome<T>, valueFactory: Option<T> -> Outcome<T>,
                                buffer: Buffer<T>, bufferTtl: Ttl, now: nat, v: T)
    requires policy != BreakerOverRetry(Open)
    requires stack(0) == Err(RedisTimeoutException) && stack(1) == Err(RedisTimeoutException) && stack(2) == Ok(v)
    ensures var run := GetOrSetRun(policy, keyPrefix, cacheKey, settings, stack, valueFactory, buffer, bufferTtl, now);
            && run.result == Ok(v)
            && CountWhere(run.calls, IsStackGetOrSet<T>) == 3
            && CountWhere(run.calls, IsDirectFetch<T>) == 0
            && run.buffer == buffer[keyPrefix + cacheKey := BufferEntry(v, now + 6 + bufferTtl)]
  {
    assert RetryFrom(stack, 2) == PolicyRun(Ok(v), 1, []);
    assert Execute(policy, stack) == PolicyRun(Ok(v), 3, [2, 4]);
    assert Sum([2, 4]) == 6;
    WriteThroughOnSuccess(policy, keyPrefix, cacheKey, settings, stack, valueFactory, buffer, bufferTtl, now);
    StackCallsPerAttempt(policy, keyPrefix, cacheKey, settings, stack, valueFactory, buffer, bufferTtl, now);
  }

  /** While the shared tier keeps failing, the first call fetches directly and buffers the
      value; a later call within the buffer's time to live of the first is served from the
      buffer without the value factory, and one after it calls the value factory again. */
  lemma OutageServedFromBuffer<T>(policy: Policy, keyPrefix: string, cacheKey: string, settings: CacheSettings,
                                  stack: nat -> Outcome<T>, valueFactory: Option<T> -> Outcome<T>,
                                  buffer: Buffer<T>, bufferTtl: Ttl, first: nat, second: nat, v: T)
    requires forall n :: IsHandledFailure(stack(n))
    requires keyPrefix + cacheKey !in buffer
    requires valueFactory(None) == Ok(v)
    requires first <= second
    ensures var run1 := GetOrSetRun(policy, keyPrefix, cacheKey, settings, stack, valueFactory, buffer, bufferTtl, first);
            var run2 := GetOrSetRun(policy, keyPrefix, cacheKey, settings, stack, valueFactory, run1.buffer, bufferTtl, second);
            && run1.result == Ok(v)
            && CountWhere(run1.calls, IsDirectFetch<T>) == 1
            && (second < first + bufferTtl ==> run2.result == Ok(v) && CountWhere(run2.calls, IsDirectFetch<T>) == 0)
            && (second >= first + bufferTtl ==> run2.result == Ok(v) && CountWhere(run2.calls, IsDirectFetch<T>) == 1)
  {
    var key := keyPrefix + cacheKey;
    var p := Execute(policy, stack);
    ExecuteGate(policy, stack);
    RetryCharacterization(stack);
    assert p.outcome.Err?;
    var d := Sum(p.delays);
    DirectFetchOnMiss(policy, keyPrefix, cacheKey, settings, stack, valueFactory, buffer, bufferTtl, first);
    var run1 := GetOrSetRun(policy, keyPrefix, cacheKey, settings, stack, valueFactory, buffer, bufferTtl, first);
    assert run1.buffer == Store(buffer, key, v, bufferTtl, first + d);
    LookupAfterStore(buffer, key, v, bufferTtl, first + d, second + d);
    if second < first + bufferTtl {
      BufferServesFailure(policy, keyPrefix, cacheKey, settings, stack, valueFactory, run1.buffer, bufferTtl, second);
    } else {
      DirectFetchOnMiss(policy, keyPrefix, cacheKey, settings, stack, valueFactory, run1.buffer, bufferTtl, second);
    }
  }
}
