/** Values, failures and collaborator calls shared by both cache facades and the
    exchange-rate controller. */
module CacheTypes {

  datatype Option<T> = None | Some(value: T)

  /** The exceptions the modelled code raises, catches or classifies. */
  datatype Exception =
    | RedisException                          // StackExchange.Redis: connection or server failure
    | RedisTimeoutException                   // StackExchange.Redis: the shared tier timed out
    | BrokenCircuitException                  // Polly: the circuit is open and the call was not made
    | ArgumentOutOfRangeException(paramName: string)
    | DivideByZeroException
    | NullReferenceException
    | OtherException(description: string)    // anything else, e.g. the value factory failing inside the stack

  /** The result of a call that either returns a value or throws. */
  datatype Outcome<T> = Ok(value: T) | Err(error: Exception)

  /** CacheTower's CacheSettings: time to live and optional stale-after, in whole seconds. */
  datatype CacheSettings = CacheSettings(timeToLive: nat, staleAfter: Option<nat>)

  /** One interaction of a facade with a collaborator: the cache stack, the back-off
      timer, the process-local buffer, or the caller's value factory. A facade
      operation reports the sequence of these it performed, in order. */
  datatype Call<T> =
    | StackGetOrSet(key: string, settings: CacheSettings)
    | StackEvict(key: string)
    | Sleep(seconds: nat)
    | BufferGet(key: string)
    | BufferSet(key: string, value: T, ttl: nat)
    | DirectFetch(previous: Option<T>)
  {
    /** The call addresses a cache entry by key. */
    predicate HasKey() {
      StackGetOrSet? || StackEvict? || BufferGet? || BufferSet?
    }
  }

  /** Number of calls in `calls` that satisfy `p`. */
  function CountWhere<T>(calls: seq<Call<T>>, p: Call<T> -> bool): nat
  {
    if calls == [] then 0
    else (if p(calls[0]) then 1 else 0) + CountWhere(calls[1..], p)
  }

  lemma {:induction false} CountWhereAppend<T>(a: seq<Call<T>>, b: seq<Call<T>>, p: Call<T> -> bool)
    ensures CountWhere(a + b, p) == CountWhere(a, p) + CountWhere(b, p)
  {
    if a == [] {
      assert a + b == b;
    } else {
      assert (a + b)[1..] == a[1..] + b;
      CountWhereAppend(a[1..], b, p);
    }
  }

  lemma {:induction false} CountWhereNone<T>(calls: seq<Call<T>>, p: Call<T> -> bool)
    requires forall i :: 0 <= i < |calls| ==> !p(calls[i])
    ensures CountWhere(calls, p) == 0
  {
    if calls != [] {
      assert forall i :: 0 <= i < |calls[1..]| ==> calls[1..][i] == calls[i + 1];
      CountWhereNone(calls[1..], p);
    }
  }

  /** Sum of a sequence of durations. */
  function Sum(ds: seq<nat>): nat
  {
    if ds == [] then 0 else ds[0] + Sum(ds[1..])
  }
}
