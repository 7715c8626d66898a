/** The resilience policies the facades run cache-stack calls through: a wait-and-retry
    policy that handles Redis exceptions only, optionally wrapped by a circuit breaker
    that is reduced here to the gate it presents to one call. */
module Resilience {
  import opened CacheTypes

  /** Retries after the first attempt. */
  const RetryCount: nat := 3

  /** Parameters handed to the advanced circuit breaker. How the library's rolling
      window turns them into state changes is not modelled: the breaker is a gate. */
  const FailureThreshold: real := 0.1
  const SamplingDurationSeconds: nat := 15 * 60
  const MinimumThroughput: nat := 100
  const DurationOfBreakSeconds: nat := 5 * 60

  /** The exceptions both policies handle: only the two Redis ones. */
  predicate IsHandled(e: Exception)
  {
    e.RedisException? || e.RedisTimeoutException?
  }

  predicate IsHandledFailure<U>(o: Outcome<U>)
  {
    o.Err? && IsHandled(o.error)
  }

  function Pow2(n: nat): nat
  {
    if n == 0 then 1 else 2 * Pow2(n - 1)
  }

  /** Seconds waited before retry number `retryAttempt` (counted from 1). */
  function SleepDuration(retryAttempt: nat): nat
  {
    Pow2(retryAttempt)
  }

  /** What one execution of a policy did: its outcome, how many times it invoked the
      action, and the back-off waits taken between invocations, in order. */
  datatype PolicyRun<U> = PolicyRun(outcome: Outcome<U>, attempts: nat, delays: seq<nat>)

  /** The retry policy from attempt `n` on, where `op(n)` is the outcome of the action on
      attempt `n` (counted from 0). A handled failure is retried while retries remain;
      any other outcome, and the last handled failure, end the execution. */
  function RetryFrom<U>(op: nat -> Outcome<U>, n: nat): PolicyRun<U>
    requires n <= RetryCount
    decreases RetryCount - n
  {
    if IsHandledFailure(op(n)) && n < RetryCount then
      var rest := RetryFrom(op, n + 1);
      PolicyRun(rest.outcome, rest.attempts + 1, [SleepDuration(n + 1)] + rest.delays)
    else
      PolicyRun(op(n), 1, [])
  }

  function Retry<U>(op: nat -> Outcome<U>): PolicyRun<U>
  {
    RetryFrom(op, 0)
  }

  /** The state of the circuit as one call finds it. `HalfOpen` stands for a half-open
      circuit that admits this call as its trial; a half-open circuit that refuses the
      call (its one trial per break duration already taken) is passed as `Open`. */
  datatype CircuitState = Closed | Open | HalfOpen

  /** Retry alone, or the circuit breaker as the outer policy wrapping retry. */
  datatype Policy = RetryOnly | BreakerOverRetry(circuit: CircuitState)

  /** One execution of a policy: an open circuit rejects without invoking the action. */
  function Execute<U>(policy: Policy, op: nat -> Outcome<U>): PolicyRun<U>
  {
    if policy.BreakerOverRetry? && policy.circuit.Open? then
      PolicyRun(Err(BrokenCircuitException), 0, [])
    else
      Retry(op)
  }

  /** What the circuit breaker records about an execution of the retry policy it wraps. */
  datatype BreakerSample = Success | HandledFailure | Unrecorded

  function BreakerRecords<U>(outcome: Outcome<U>): BreakerSample
  {
    if outcome.Ok? then Success
    else if IsHandled(outcome.error) then HandledFailure
    else Unrecorded
  }

  /** The retry loop: invoke the action, and while it fails with a handled exception and
      retries remain, wait the back-off and invoke it again. */
  method RetryAsync<U>(op: nat -> Outcome<U>) returns (outcome: Outcome<U>, attempts: nat, delays: seq<nat>)
    ensures PolicyRun(outcome, attempts, delays) == Retry(op)
  {
    var n: nat := 0;
    outcome := op(0);
    delays := [];
    while IsHandledFailure(outcome) && n < RetryCount
      invariant n <= RetryCount
      invariant outcome == op(n)
      invariant var rest := RetryFrom(op, n);
                Retry(op) == PolicyRun(rest.outcome, rest.attempts + n, delays + rest.delays)
      decreases RetryCount - n
    {
      ghost var rest := RetryFrom(op, n + 1);
      assert RetryFrom(op, n) == PolicyRun(rest.outcome, rest.attempts + 1, [SleepDuration(n + 1)] + rest.delays);
      assert delays + ([SleepDuration(n + 1)] + rest.delays) == (delays + [SleepDuration(n + 1)]) + rest.delays;
      delays := delays + [SleepDuration(n + 1)];
      n := n + 1;
      outcome := op(n);
    }
    assert RetryFrom(op, n) == PolicyRun(outcome, 1, []);
    assert delays + [] == delays;
    attempts := n + 1;
  }

  /** Policy execution as the facades call it. */
  method ExecuteAsync<U>(policy: Policy, op: nat -> Outcome<U>) returns (outcome: Outcome<U>, attempts: nat, delays: seq<nat>)
    ensures PolicyRun(outcome, attempts, delays) == Execute(policy, op)
  {
    if policy.BreakerOverRetry? && policy.circuit.Open? {
      outcome, attempts, delays := Err(BrokenCircuitException), 0, [];
    } else {
      outcome, attempts, delays := RetryAsync(op);
    }
  }

  /** From attempt `n`, the retry policy invokes the action until the first outcome that
      is not a handled failure or until the retries run out, returns that last outcome,
      and waits 2^(m+1) seconds before each attempt m+1. */
  lemma {:induction false} RetryFromSettles<U>(op: nat -> Outcome<U>, n: nat)
    requires n <= RetryCount
    ensures var r := RetryFrom(op, n);
            && 1 <= r.attempts
            && n + r.attempts <= RetryCount + 1
            && r.outcome == op(n + r.attempts - 1)
            && (forall j :: n <= j < n + r.attempts - 1 ==> IsHandledFailure(op(j)))
            && (n + r.attempts <= RetryCount ==> !IsHandledFailure(r.outcome))
            && |r.delays| == r.attempts - 1
            && (forall i :: 0 <= i < |r.delays| ==> r.delays[i] == SleepDuration(n + i + 1))
    decreases RetryCount - n
  {
    if IsHandledFailure(op(n)) && n < RetryCount {
      RetryFromSettles(op, n + 1);
      var rest := RetryFrom(op, n + 1);
      var r := RetryFrom(op, n);
      assert r.delays == [SleepDuration(n + 1)] + rest.delays;
      forall i | 0 <= i < |r.delays|
        ensures r.delays[i] == SleepDuration(n + i + 1)
      {
        if i > 0 {
          assert r.delays[i] == rest.delays[i - 1];
        }
      }
    }
  }

  /** The retry policy's whole contract: 1 to 4 attempts; every attempt but the last
      failed with a Redis exception; the result is the last attempt's outcome; fewer than
      4 attempts means the last outcome was not a Redis failure; the waits are 2, 4, 8
      seconds, one before each retry. */
  lemma RetryCharacterization<U>(op: nat -> Outcome<U>)
    ensures var r := Retry(op);
            && 1 <= r.attempts <= RetryCount + 1
            && r.outcome == op(r.attempts - 1)
            && (forall j :: 0 <= j < r.attempts - 1 ==> IsHandledFailure(op(j)))
            && (r.attempts <= RetryCount ==> !IsHandledFailure(r.outcome))
            && r.delays == [2, 4, 8][..r.attempts - 1]
  {
    RetryFromSettles(op, 0);
    var r := Retry(op);
    BackoffSchedule();
    assert forall i :: 0 <= i < |r.delays| ==> r.delays[i] == [2, 4, 8][i];
  }

  /** The first three back-off waits are 2, 4 and 8 seconds, and each wait doubles the last. */
  lemma BackoffSchedule()
    ensures SleepDuration(1) == 2 && SleepDuration(2) == 4 && SleepDuration(3) == 8
    ensures forall n: nat :: SleepDuration(n + 1) == 2 * SleepDuration(n)
  {
  }

  /** An exception the policy does not handle, such as a value-factory failure inside the
      stack, ends the execution after the attempt that raised it: it is never retried. */
  lemma UnhandledNotRetried<U>(op: nat -> Outcome<U>, k: nat)
    requires k <= RetryCount
    requires op(k).Err? && !IsHandled(op(k).error)
    requires forall j :: 0 <= j < k ==> IsHandledFailure(op(j))
    ensures Retry(op) == PolicyRun(op(k), k + 1, [2, 4, 8][..k])
  {
    RetryCharacterization(op);
  }

  /** The breaker counts an execution as a failure only when the retry policy gave up
      after all four attempts failed with Redis exceptions; a failure it does not handle
      is never recorded. */
  lemma BreakerFailureMeansRetriesExhausted<U>(op: nat -> Outcome<U>)
    ensures BreakerRecords(Retry(op).outcome) == HandledFailure <==>
            (Retry(op).attempts == RetryCount + 1 && forall j :: 0 <= j <= RetryCount ==> IsHandledFailure(op(j)))
  {
    RetryCharacterization(op);
  }

  /** An open circuit invokes nothing and fails with BrokenCircuitException; closed and
      half-open circuits, and the retry-only policy, run the retry policy unchanged. */
  lemma ExecuteGate<U>(policy: Policy, op: nat -> Outcome<U>)
    ensures var r := Execute(policy, op);
            (r.attempts == 0 <==> policy == BreakerOverRetry(Open))
            && (policy == BreakerOverRetry(Open) ==> r.outcome == Err(BrokenCircuitException) && r.delays == [])
            && (policy != BreakerOverRetry(Open) ==> r == Retry(op))
  {
    RetryCharacterization(op);
  }
}
