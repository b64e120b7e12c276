/**
  The retry loop run by the asynchronous executor for a synchronous operation: submit the
  task, wait for it at most the policy's timeout, and on failure sleep and try again until
  the retry budget is spent. The thread pool, the clock and the task itself are outside the
  model; what they do at each step is given by an Environment.
*/
module RetryExecutor {
  import opened Wrappers

  datatype RetryPolicy = RetryPolicy(maxRetry: int, retryIntervalMs: int, timeoutMs: int)

  /** The policy the auto-configuration installs: 3 retries, 1000 ms apart, 5000 ms timeout. */
  const DefaultPolicy: RetryPolicy := RetryPolicy(3, 1000, 5000)

  /** How one submission of the task ends, as the waiting worker sees it. */
  datatype Attempt =
    | Completed(elapsedMs: nat)  // the task returns after this long
    | Threw(error: nat)          // the task throws (identified by a number)
    | WaitInterrupted            // the worker is interrupted while waiting

  /** The exception a failed attempt hands to the failure callback. */
  datatype Cause =
    | ExecutionFailed(error: nat)   // the task's exception, wrapped by the future
    | TimedOut                      // the wait exceeded the timeout
    | Interrupted                   // the wait was interrupted
    | SuccessCallbackFailed(error: nat)  // the success callback itself threw inside the try block

  /**
    What the world does at step k: how the k-th submission ends, whether the success
    callback throws when run after it, and whether the sleep after the k-th failure is
    interrupted.
  */
  datatype Environment = Environment(
    attempt: nat -> Attempt,
    successThrows: nat -> Option<nat>,
    sleepInterrupted: nat -> bool)

  datatype Ending =
    | NoAttempt          // the loop guard was false from the start
    | Succeeded          // the success step ran to completion
    | GaveUp(cause: Cause)  // the budget is spent; `cause` is the last attempt's exception
    | Crashed            // the sleep was refused or interrupted and an unchecked exception ended the worker

  /**
    What the worker did: tasks submitted, sleeps taken, calls of the success callback (it
    runs again on every attempt whose callback throws), the arguments of the calls of the
    failure callback, and how it ended.
  */
  datatype Trace = Trace(attempts: nat, sleeps: nat, successCalls: nat, failureCalls: seq<Cause>, ending: Ending)

  /** Whether attempt `k` ends the task in time, so that the success callback runs. */
  predicate InTime(p: RetryPolicy, env: Environment, k: nat)
  {
    env.attempt(k).Completed? && env.attempt(k).elapsedMs <= p.timeoutMs
  }

  /** The exception attempt `k` ends with, or None when the whole success step completes. */
  function AttemptFailure(p: RetryPolicy, env: Environment, hasOnSuccess: bool, k: nat): (r: Option<Cause>)
    ensures env.attempt(k).Threw? ==> r == Some(ExecutionFailed(env.attempt(k).error))
    ensures env.attempt(k).WaitInterrupted? ==> r == Some(Interrupted)
    ensures env.attempt(k).Completed? && env.attempt(k).elapsedMs > p.timeoutMs ==> r == Some(TimedOut)
    ensures r.None? <==> InTime(p, env, k) && !(hasOnSuccess && env.successThrows(k).Some?)
  {
    match env.attempt(k)
    case Threw(err) => Some(ExecutionFailed(err))
    case WaitInterrupted => Some(Interrupted)
    case Completed(elapsed) =>
      if elapsed > p.timeoutMs then Some(TimedOut)
      else if hasOnSuccess && env.successThrows(k).Some? then Some(SuccessCallbackFailed(env.successThrows(k).value))
      else None
  }

  /**
    Whether the sleep after failed attempt `k` ends the worker: a negative interval is
    refused with an unchecked exception before any waiting, and an interrupted sleep is
    rethrown as a runtime exception; neither is caught by the loop.
  */
  predicate SleepFails(p: RetryPolicy, env: Environment, k: nat)
  {
    p.retryIntervalMs < 0 || env.sleepInterrupted(k)
  }

  /** Adds `a` attempts, `s` sleeps and `c` success-callback calls made before the rest of a run. */
  function After(t: Trace, a: nat, s: nat, c: nat): Trace
  {
    t.(attempts := t.attempts + a, sleeps := t.sleeps + s, successCalls := t.successCalls + c)
  }

  lemma AfterAfter(t: Trace, a: nat, s: nat, c: nat, a': nat, s': nat, c': nat)
    ensures After(After(t, a, s, c), a', s', c') == After(t, a + a', s + s', c + c')
  {
  }

  /** The worker's run from the point where `k` attempts have failed and the loop guard is tested. */
  function Worker(p: RetryPolicy, env: Environment, hasOnSuccess: bool, hasOnFailure: bool, k: nat): Trace
    decreases if p.maxRetry + 1 - k > 0 then p.maxRetry + 1 - k else 0
  {
    if k > p.maxRetry then Trace(0, 0, 0, [], NoAttempt)
    else
      var calls := if hasOnSuccess && InTime(p, env, k) then 1 else 0;
      match AttemptFailure(p, env, hasOnSuccess, k)
      case None => Trace(1, 0, calls, [], Succeeded)
      case Some(c) =>
        if k + 1 > p.maxRetry then Trace(1, 0, calls, if hasOnFailure then [c] else [], GaveUp(c))
        else if SleepFails(p, env, k) then Trace(1, 0, calls, [], Crashed)
        else After(Worker(p, env, hasOnSuccess, hasOnFailure, k + 1), 1, 1, calls)
  }

  /** One turn of the loop, with its guard true. */
  lemma WorkerStep(p: RetryPolicy, env: Environment, hasOnSuccess: bool, hasOnFailure: bool, k: nat)
    requires k <= p.maxRetry
    ensures var calls := if hasOnSuccess && InTime(p, env, k) then 1 else 0;
            var t := Worker(p, env, hasOnSuccess, hasOnFailure, k);
            var f := AttemptFailure(p, env, hasOnSuccess, k);
            && (f.None? ==> t == Trace(1, 0, calls, [], Succeeded))
            && (f.Some? && k + 1 > p.maxRetry ==> t == Trace(1, 0, calls, if hasOnFailure then [f.value] else [], GaveUp(f.value)))
            && (f.Some? && k + 1 <= p.maxRetry && SleepFails(p, env, k) ==> t == Trace(1, 0, calls, [], Crashed))
            && (f.Some? && k + 1 <= p.maxRetry && !SleepFails(p, env, k) ==>
                  t == After(Worker(p, env, hasOnSuccess, hasOnFailure, k + 1), 1, 1, calls))
  {
  }

  class SynchronousOperationAsyncRetryExecutor {
    const policy: RetryPolicy

    constructor (policy: RetryPolicy)
      ensures this.policy == policy
    {
      this.policy := policy;
    }

    /**
      The worker body: the task is submitted until it succeeds or the policy's retry budget
      is spent, sleeping between failed attempts. The callbacks are optional.
    */
    method SubmitWithRetry(env: Environment, hasOnSuccess: bool, hasOnFailure: bool) returns (t: Trace)
      ensures t == Worker(policy, env, hasOnSuccess, hasOnFailure, 0)
    {
      var attempts: nat := 0;
      var successCalls: nat := 0;
      LoopIsWorker(policy, env, hasOnSuccess, hasOnFailure, 0, 0);
      assert After(Worker(policy, env, hasOnSuccess, hasOnFailure, 0), 0, 0, 0) == Worker(policy, env, hasOnSuccess, hasOnFailure, 0);
      while attempts <= policy.maxRetry
        invariant attempts == 0 || attempts <= policy.maxRetry
        invariant Loop(policy, env, hasOnSuccess, hasOnFailure, attempts, successCalls) == Worker(policy, env, hasOnSuccess, hasOnFailure, 0)
        decreases policy.maxRetry + 1 - attempts
      {
        var calls := if hasOnSuccess && InTime(policy, env, attempts) then 1 else 0;
        var failure := AttemptFailure(policy, env, hasOnSuccess, attempts);
        if failure.None? {
          return Trace(attempts + 1, attempts, successCalls + calls, [], Succeeded);
        }
        var cause := failure.value;
        if attempts + 1 > policy.maxRetry {
          return Trace(attempts + 1, attempts, successCalls + calls, if hasOnFailure then [cause] else [], GaveUp(cause));
        }
        if policy.retryIntervalMs < 0 || env.sleepInterrupted(attempts) {
          return Trace(attempts + 1, attempts, successCalls + calls, [], Crashed);
        }
        successCalls := successCalls + calls;
        attempts := attempts + 1;
      }
      return Trace(attempts, attempts, successCalls, [], NoAttempt);
    }
  }

  /**
    The loop's run from the state where `a` attempts have failed and the success callback
    has run `c` times, with every count carried along.
  */
  function Loop(p: RetryPolicy, env: Environment, hasOnSuccess: bool, hasOnFailure: bool, a: nat, c: nat): Trace
    decreases if p.maxRetry + 1 - a > 0 then p.maxRetry + 1 - a else 0
  {
    if a > p.maxRetry then Trace(a, a, c, [], NoAttempt)
    else
      var calls := if hasOnSuccess && InTime(p, env, a) then 1 else 0;
      match AttemptFailure(p, env, hasOnSuccess, a)
      case None => Trace(a + 1, a, c + calls, [], Succeeded)
      case Some(cause) =>
        if a + 1 > p.maxRetry then Trace(a + 1, a, c + calls, if hasOnFailure then [cause] else [], GaveUp(cause))
        else if SleepFails(p, env, a) then Trace(a + 1, a, c + calls, [], Crashed)
        else Loop(p, env, hasOnSuccess, hasOnFailure, a + 1, c + calls)
  }

  /** Carrying the counts along is the same as adding them to the worker's run from that step. */
  lemma {:induction false} LoopIsWorker(p: RetryPolicy, env: Environment, hasOnSuccess: bool, hasOnFailure: bool, a: nat, c: nat)
    ensures Loop(p, env, hasOnSuccess, hasOnFailure, a, c) == After(Worker(p, env, hasOnSuccess, hasOnFailure, a), a, a, c)
    decreases if p.maxRetry + 1 - a > 0 then p.maxRetry + 1 - a else 0
  {
    if a <= p.maxRetry {
      var calls := if hasOnSuccess && InTime(p, env, a) then 1 else 0;
      var f := AttemptFailure(p, env, hasOnSuccess, a);
      if f.None? {
        assert Loop(p, env, hasOnSuccess, hasOnFailure, a, c) == Trace(a + 1, a, c + calls, [], Succeeded);
        assert Worker(p, env, hasOnSuccess, hasOnFailure, a) == Trace(1, 0, calls, [], Succeeded);
      } else if a + 1 > p.maxRetry {
        assert Loop(p, env, hasOnSuccess, hasOnFailure, a, c) == Trace(a + 1, a, c + calls, if hasOnFailure then [f.value] else [], GaveUp(f.value));
        assert Worker(p, env, hasOnSuccess, hasOnFailure, a) == Trace(1, 0, calls, if hasOnFailure then [f.value] else [], GaveUp(f.value));
      } else if SleepFails(p, env, a) {
        assert Loop(p, env, hasOnSuccess, hasOnFailure, a, c) == Trace(a + 1, a, c + calls, [], Crashed);
        assert Worker(p, env, hasOnSuccess, hasOnFailure, a) == Trace(1, 0, calls, [], Crashed);
      } else {
        assert Loop(p, env, hasOnSuccess, hasOnFailure, a, c) == Loop(p, env, hasOnSuccess, hasOnFailure, a + 1, c + calls);
        assert Worker(p, env, hasOnSuccess, hasOnFailure, a) == After(Worker(p, env, hasOnSuccess, hasOnFailure, a + 1), 1, 1, calls);
        LoopIsWorker(p, env, hasOnSuccess, hasOnFailure, a + 1, c + calls);
        AfterAfter(Worker(p, env, hasOnSuccess, hasOnFailure, a + 1), 1, 1, calls, a, a, c);
      }
    }
  }

  /** With a budget of n >= 0 retries the worker submits the task at least once and at most n + 1 times. */
  lemma {:induction false} AttemptsBounded(p: RetryPolicy, env: Environment, hasOnSuccess: bool, hasOnFailure: bool, k: nat)
    requires k <= p.maxRetry
    ensures var t := Worker(p, env, hasOnSuccess, hasOnFailure, k);
            1 <= t.attempts <= p.maxRetry + 1 - k && t.sleeps < t.attempts
    decreases p.maxRetry + 1 - k
  {
    match AttemptFailure(p, env, hasOnSuccess, k)
    case None =>
    case Some(c) =>
      if k + 1 <= p.maxRetry && !SleepFails(p, env, k) {
        AttemptsBounded(p, env, hasOnSuccess, hasOnFailure, k + 1);
      }
  }

  /** A negative budget makes no attempt and runs no callback. */
  lemma NegativeBudgetDoesNothing(p: RetryPolicy, env: Environment, hasOnSuccess: bool, hasOnFailure: bool)
    requires p.maxRetry < 0
    ensures Worker(p, env, hasOnSuccess, hasOnFailure, 0) == Trace(0, 0, 0, [], NoAttempt)
  {
  }

  /**
    Every run with a non-negative budget ends in exactly one way; the failure callback runs
    at most once, only when the worker gives up, and then with the last attempt's exception.
  */
  lemma {:induction false} ExactlyOneEnding(p: RetryPolicy, env: Environment, hasOnSuccess: bool, hasOnFailure: bool, k: nat)
    requires k <= p.maxRetry
    ensures var t := Worker(p, env, hasOnSuccess, hasOnFailure, k);
            && !t.ending.NoAttempt?
            && |t.failureCalls| <= 1
            && (|t.failureCalls| == 1 <==> t.ending.GaveUp? && hasOnFailure)
            && (t.ending.GaveUp? ==>
                  && t.attempts == p.maxRetry + 1 - k
                  && AttemptFailure(p, env, hasOnSuccess, p.maxRetry) == Some(t.ending.cause)
                  && (hasOnFailure ==> t.failureCalls == [t.ending.cause]))
    decreases p.maxRetry + 1 - k
  {
    match AttemptFailure(p, env, hasOnSuccess, k)
    case None =>
    case Some(c) =>
      if k + 1 <= p.maxRetry && !SleepFails(p, env, k) {
        ExactlyOneEnding(p, env, hasOnSuccess, hasOnFailure, k + 1);
      }
  }

  /** Whether attempts k to s - 1 all fail and none of the sleeps after them is interrupted. */
  ghost predicate FailQuietlyUntil(p: RetryPolicy, env: Environment, hasOnSuccess: bool, k: nat, s: nat)
  {
    forall i: nat :: k <= i < s ==> AttemptFailure(p, env, hasOnSuccess, i).Some? && !SleepFails(p, env, i)
  }

  /** Peels the first quiet failure off a run of them. */
  lemma FailQuietlyStep(p: RetryPolicy, env: Environment, hasOnSuccess: bool, k: nat, s: nat)
    requires k < s && FailQuietlyUntil(p, env, hasOnSuccess, k, s)
    ensures AttemptFailure(p, env, hasOnSuccess, k).Some? && !SleepFails(p, env, k)
    ensures FailQuietlyUntil(p, env, hasOnSuccess, k + 1, s)
  {
  }

  /** A quiet failure within budget adds one attempt and one sleep to the rest of the run and changes nothing else it reports. */
  lemma QuietFailureContinues(p: RetryPolicy, env: Environment, hasOnSuccess: bool, hasOnFailure: bool, k: nat)
    requires k < p.maxRetry
    requires AttemptFailure(p, env, hasOnSuccess, k).Some? && !SleepFails(p, env, k)
    ensures var t := Worker(p, env, hasOnSuccess, hasOnFailure, k);
            var rest := Worker(p, env, hasOnSuccess, hasOnFailure, k + 1);
            && t.attempts == rest.attempts + 1 && t.sleeps == rest.sleeps + 1
            && t.ending == rest.ending && t.failureCalls == rest.failureCalls
            && t.successCalls == rest.successCalls + (if hasOnSuccess && InTime(p, env, k) then 1 else 0)
  {
    WorkerStep(p, env, hasOnSuccess, hasOnFailure, k);
  }

  /** How many of attempts k to s - 1 end in time; after each of them a present success callback runs. */
  function InTimeCount(p: RetryPolicy, env: Environment, k: nat, s: nat): nat
    decreases if s > k then s - k else 0
  {
    if k >= s then 0 else (if InTime(p, env, k) then 1 else 0) + InTimeCount(p, env, k + 1, s)
  }

  /** The count is zero exactly when none of the attempts ends in time. */
  lemma {:induction false} InTimeCountZero(p: RetryPolicy, env: Environment, k: nat, s: nat)
    ensures InTimeCount(p, env, k, s) == 0 <==> forall i :: k <= i < s ==> !InTime(p, env, i)
    decreases if s > k then s - k else 0
  {
    if k < s {
      InTimeCountZero(p, env, k + 1, s);
    }
  }

  /**
    An attempt that ends in time and still fails is one whose success callback threw: the
    callback runs inside the try block, so its exception is handled like the task's.
  */
  lemma InTimeFailureMeansCallbackThrew(p: RetryPolicy, env: Environment, hasOnSuccess: bool, k: nat)
    requires InTime(p, env, k) && AttemptFailure(p, env, hasOnSuccess, k).Some?
    ensures hasOnSuccess && env.successThrows(k).Some?
    ensures AttemptFailure(p, env, hasOnSuccess, k) == Some(SuccessCallbackFailed(env.successThrows(k).value))
  {
  }

  /**
    The first successful attempt ends the loop: when attempts k to s - 1 fail quietly and
    attempt s, within budget, succeeds, exactly s + 1 - k attempts are made, the success
    callback's last run completes and the failure callback never runs. A present success
    callback runs once for the successful attempt and once more for every earlier attempt
    that ended in time (whose callback then threw); so exactly once when none did.
  */
  lemma {:induction false} SuccessShortCircuits(p: RetryPolicy, env: Environment, hasOnSuccess: bool, hasOnFailure: bool, k: nat, s: nat)
    requires k <= s <= p.maxRetry
    requires FailQuietlyUntil(p, env, hasOnSuccess, k, s)
    requires AttemptFailure(p, env, hasOnSuccess, s).None?
    ensures var t := Worker(p, env, hasOnSuccess, hasOnFailure, k);
            && t.attempts == s + 1 - k && t.sleeps == s - k && t.ending == Succeeded && t.failureCalls == []
            && t.successCalls == (if hasOnSuccess then InTimeCount(p, env, k, s) + 1 else 0)
            && (hasOnSuccess && (forall i :: k <= i < s ==> !InTime(p, env, i)) ==> t.successCalls == 1)
    decreases s - k
  {
    InTimeCountZero(p, env, k, s);
    if k < s {
      FailQuietlyStep(p, env, hasOnSuccess, k, s);
      QuietFailureContinues(p, env, hasOnSuccess, hasOnFailure, k);
      SuccessShortCircuits(p, env, hasOnSuccess, hasOnFailure, k + 1, s);
    } else {
      WorkerStep(p, env, hasOnSuccess, hasOnFailure, k);
    }
  }

  /**
    When every attempt within the budget fails and no sleep is interrupted, the task runs
    n + 1 times with n sleeps between them (none after the last), the worker gives up with
    the last attempt's exception, and the failure callback, when present, runs exactly once.
    A present success callback runs once for every attempt that ended in time (and then
    threw), so never when no attempt ended in time.
  */
  lemma {:induction false} AllFailuresGiveUp(p: RetryPolicy, env: Environment, hasOnSuccess: bool, hasOnFailure: bool, k: nat)
    requires k <= p.maxRetry
    requires FailQuietlyUntil(p, env, hasOnSuccess, k, p.maxRetry)
    requires AttemptFailure(p, env, hasOnSuccess, p.maxRetry).Some?
    ensures var t := Worker(p, env, hasOnSuccess, hasOnFailure, k);
            var last := AttemptFailure(p, env, hasOnSuccess, p.maxRetry).value;
            && t.attempts == p.maxRetry + 1 - k
            && t.sleeps == p.maxRetry - k
            && t.ending == GaveUp(last)
            && t.failureCalls == (if hasOnFailure then [last] else [])
            && t.successCalls == (if hasOnSuccess then InTimeCount(p, env, k, p.maxRetry + 1) else 0)
            && ((forall i :: k <= i <= p.maxRetry ==> !InTime(p, env, i)) ==> t.successCalls == 0)
    decreases p.maxRetry - k
  {
    InTimeCountZero(p, env, k, p.maxRetry + 1);
    if k < p.maxRetry {
      FailQuietlyStep(p, env, hasOnSuccess, k, p.maxRetry);
      QuietFailureContinues(p, env, hasOnSuccess, hasOnFailure, k);
      AllFailuresGiveUp(p, env, hasOnSuccess, hasOnFailure, k + 1);
    } else {
      WorkerStep(p, env, hasOnSuccess, hasOnFailure, k);
    }
  }

  /**
    A sleep that is refused (negative interval) or interrupted ends the worker with an
    unchecked exception: no further attempt and no failure callback.
  */
  lemma {:induction false} InterruptedSleepCrashes(p: RetryPolicy, env: Environment, hasOnSuccess: bool, hasOnFailure: bool, k: nat, s: nat)
    requires k <= s < p.maxRetry
    requires FailQuietlyUntil(p, env, hasOnSuccess, k, s)
    requires AttemptFailure(p, env, hasOnSuccess, s).Some? && SleepFails(p, env, s)
    ensures var t := Worker(p, env, hasOnSuccess, hasOnFailure, k);
            && t.attempts == s + 1 - k && t.sleeps == s - k && t.ending == Crashed && t.failureCalls == []
            && t.successCalls == (if hasOnSuccess then InTimeCount(p, env, k, s + 1) else 0)
    decreases s - k
  {
    if k < s {
      FailQuietlyStep(p, env, hasOnSuccess, k, s);
      QuietFailureContinues(p, env, hasOnSuccess, hasOnFailure, k);
      InterruptedSleepCrashes(p, env, hasOnSuccess, hasOnFailure, k + 1, s);
      assert InTimeCount(p, env, k, s + 1) == (if InTime(p, env, k) then 1 else 0) + InTimeCount(p, env, k + 1, s + 1);
    } else {
      SleepFailureEnds(p, env, hasOnSuccess, hasOnFailure, k);
    }
  }

  /** A failed attempt within budget whose sleep fails is the worker's last step. */
  lemma SleepFailureEnds(p: RetryPolicy, env: Environment, hasOnSuccess: bool, hasOnFailure: bool, s: nat)
    requires s < p.maxRetry
    requires AttemptFailure(p, env, hasOnSuccess, s).Some? && SleepFails(p, env, s)
    ensures var t := Worker(p, env, hasOnSuccess, hasOnFailure, s);
            && t.attempts == 1 && t.sleeps == 0 && t.ending == Crashed && t.failureCalls == []
            && t.successCalls == (if hasOnSuccess then InTimeCount(p, env, s, s + 1) else 0)
  {
    WorkerStep(p, env, hasOnSuccess, hasOnFailure, s);
  }

  /**
    A negative retry interval makes the first sleep throw: the first failed attempt within
    the budget ends the worker, with no further attempt and no failure callback.
  */
  lemma NegativeIntervalCrashes(p: RetryPolicy, env: Environment, hasOnSuccess: bool, hasOnFailure: bool, k: nat)
    requires p.retryIntervalMs < 0 && k < p.maxRetry
    requires AttemptFailure(p, env, hasOnSuccess, k).Some?
    ensures var t := Worker(p, env, hasOnSuccess, hasOnFailure, k);
            t.attempts == 1 && t.sleeps == 0 && t.ending == Crashed && t.failureCalls == []
  {
    WorkerStep(p, env, hasOnSuccess, hasOnFailure, k);
  }

  /** An absent callback is skipped: no success calls without a success callback, no failure calls without a failure callback. */
  lemma {:induction false} AbsentCallbacksSkipped(p: RetryPolicy, env: Environment, hasOnSuccess: bool, hasOnFailure: bool, k: nat)
    ensures !hasOnSuccess ==> Worker(p, env, hasOnSuccess, hasOnFailure, k).successCalls == 0
    ensures !hasOnFailure ==> Worker(p, env, hasOnSuccess, hasOnFailure, k).failureCalls == []
    decreases if p.maxRetry + 1 - k > 0 then p.maxRetry + 1 - k else 0
  {
    if k <= p.maxRetry && AttemptFailure(p, env, hasOnSuccess, k).Some? && k + 1 <= p.maxRetry && !SleepFails(p, env, k) {
      AbsentCallbacksSkipped(p, env, hasOnSuccess, hasOnFailure, k + 1);
    }
  }

  /** A wait longer than the timeout fails the attempt exactly as a task exception does, with a timeout as its cause. */
  lemma TimeoutIsFailure(p: RetryPolicy, env: Environment, hasOnSuccess: bool, hasOnFailure: bool, k: nat, err: nat)
    requires env.attempt(k).Completed? && env.attempt(k).elapsedMs > p.timeoutMs
    ensures var thrown := env.(attempt := (i: nat) => if i == k then Threw(err) else env.attempt(i));
            && AttemptFailure(p, env, hasOnSuccess, k) == Some(TimedOut)
            && Worker(p, env, hasOnSuccess, hasOnFailure, k).attempts == Worker(p, thrown, hasOnSuccess, hasOnFailure, k).attempts
            && Worker(p, env, hasOnSuccess, hasOnFailure, k).sleeps == Worker(p, thrown, hasOnSuccess, hasOnFailure, k).sleeps
  {
    var thrown := env.(attempt := (i: nat) => if i == k then Threw(err) else env.attempt(i));
    if k <= p.maxRetry && k + 1 <= p.maxRetry && !SleepFails(p, env, k) {
      WorkerIgnoresEarlierSteps(p, env, thrown, hasOnSuccess, hasOnFailure, k + 1);
    }
  }

  /** The run from step k on depends only on what the environment does from step k on. */
  lemma {:induction false} WorkerIgnoresEarlierSteps(p: RetryPolicy, env: Environment, env2: Environment,
                                                     hasOnSuccess: bool, hasOnFailure: bool, k: nat)
    requires forall i: nat :: i >= k ==> env.attempt(i) == env2.attempt(i)
    requires forall i: nat :: i >= k ==> env.successThrows(i) == env2.successThrows(i)
    requires forall i: nat :: i >= k ==> env.sleepInterrupted(i) == env2.sleepInterrupted(i)
    ensures Worker(p, env, hasOnSuccess, hasOnFailure, k) == Worker(p, env2, hasOnSuccess, hasOnFailure, k)
    decreases if p.maxRetry + 1 - k > 0 then p.maxRetry + 1 - k else 0
  {
    if k <= p.maxRetry {
      assert env.attempt(k) == env2.attempt(k) && env.successThrows(k) == env2.successThrows(k);
      assert env.sleepInterrupted(k) == env2.sleepInterrupted(k);
      WorkerIgnoresEarlierSteps(p, env, env2, hasOnSuccess, hasOnFailure, k + 1);
    }
  }

  /** Under the default policy the task runs at most four times, with at most three sleeps. */
  lemma DefaultPolicyBounds(env: Environment, hasOnSuccess: bool, hasOnFailure: bool)
    ensures var t := Worker(DefaultPolicy, env, hasOnSuccess, hasOnFailure, 0);
            1 <= t.attempts <= 4 && t.sleeps <= 3
  {
    AttemptsBounded(DefaultPolicy, env, hasOnSuccess, hasOnFailure, 0);
  }

  /** The largest value of the source's 32-bit attempt counter. */
  const IntMax: int := 0x7fff_ffff

  /** Incrementing a 32-bit counter, as the source's `attempts++` does: the largest value wraps to the smallest. */
  function Inc32(x: int): (y: int)
    requires -IntMax - 1 <= x <= IntMax
    ensures -IntMax - 1 <= y <= IntMax
    ensures x < IntMax ==> y == x + 1
    ensures x == IntMax ==> y == -IntMax - 1
  {
    if x == IntMax then -IntMax - 1 else x + 1
  }

  /**
    The loop as written, with the source's 32-bit attempt counter: the ending reached within
    `fuel` turns, or None when the worker is still running after them. `attempts` is the
    counter and `k` the number of attempts made so far.
  */
  function Run32(p: RetryPolicy, env: Environment, hasOnSuccess: bool, attempts: int, k: nat, fuel: nat): Option<Ending>
    requires -IntMax - 1 <= attempts <= IntMax
    decreases fuel
  {
    if fuel == 0 then None
    else if attempts > p.maxRetry then Some(NoAttempt)
    else match AttemptFailure(p, env, hasOnSuccess, k)
      case None => Some(Succeeded)
      case Some(c) =>
        var next := Inc32(attempts);
        if next > p.maxRetry then Some(GaveUp(c))
        else if SleepFails(p, env, k) then Some(Crashed)
        else Run32(p, env, hasOnSuccess, next, k + 1, fuel - 1)
  }

  /** Below the largest budget the counter never wraps, and the 32-bit loop ends as the worker definition does. */
  lemma {:induction false} Run32MatchesWorker(p: RetryPolicy, env: Environment, hasOnSuccess: bool, hasOnFailure: bool, k: nat, fuel: nat)
    requires k <= p.maxRetry < IntMax && fuel > p.maxRetry - k
    ensures Run32(p, env, hasOnSuccess, k, k, fuel) == Some(Worker(p, env, hasOnSuccess, hasOnFailure, k).ending)
    decreases p.maxRetry - k
  {
    assert Inc32(k) == k + 1;
    if AttemptFailure(p, env, hasOnSuccess, k).Some? && k + 1 <= p.maxRetry && !SleepFails(p, env, k) {
      Run32MatchesWorker(p, env, hasOnSuccess, hasOnFailure, k + 1, fuel - 1);
    }
  }

  /**
    With a budget of the largest 32-bit value and every attempt failing quietly, the counter
    wraps to the smallest value instead of passing the budget: however many turns are
    allowed, the loop as written is still running, so it never gives up and never calls the
    failure callback.
  */
  lemma {:induction false} WrappedCounterNeverGivesUp(p: RetryPolicy, env: Environment, hasOnSuccess: bool,
                                                      attempts: int, k: nat, fuel: nat)
    requires p.maxRetry == IntMax && -IntMax - 1 <= attempts <= IntMax
    requires forall i: nat :: AttemptFailure(p, env, hasOnSuccess, i).Some? && !SleepFails(p, env, i)
    ensures Run32(p, env, hasOnSuccess, attempts, k, fuel) == None
    decreases fuel
  {
    if fuel > 0 {
      assert AttemptFailure(p, env, hasOnSuccess, k).Some? && !SleepFails(p, env, k);
      WrappedCounterNeverGivesUp(p, env, hasOnSuccess, Inc32(attempts), k + 1, fuel - 1);
    }
  }

  /** With unbounded counting the same budget does give up, after exactly 2^31 attempts, when every attempt fails quietly. */
  lemma LargestBudgetGivesUp(env: Environment, hasOnSuccess: bool, hasOnFailure: bool)
    requires FailQuietlyUntil(RetryPolicy(IntMax, 1000, 5000), env, hasOnSuccess, 0, IntMax)
    requires AttemptFailure(RetryPolicy(IntMax, 1000, 5000), env, hasOnSuccess, IntMax).Some?
    ensures var t := Worker(RetryPolicy(IntMax, 1000, 5000), env, hasOnSuccess, hasOnFailure, 0);
            t.attempts == IntMax + 1 && t.ending.GaveUp?
  {
    AllFailuresGiveUp(RetryPolicy(IntMax, 1000, 5000), env, hasOnSuccess, hasOnFailure, 0);
  }
}
