/**
 * `WaitHelper` of Extensions.cs: polling a condition until it holds or a
 * timeout budget is spent.
 *
 * Time is counted in integer milliseconds.  A condition is given by its
 * outcomes: `condition(k)` is what its k-th evaluation within one `WaitFor`
 * returns.  The stopwatch is the field `elapsed`; `cost(k)` is the time that
 * passes before the k-th reading of it (the evaluation itself and any
 * oversleeping).  Time always moves on, so every `cost(k)` is at least one tick.
 */
module Waiting {
  import opened Wrappers

  /** `TimeSpan.FromSeconds(1)`, the interval of the one-argument `WithTimeout`. */
  const DefaultCheckInterval: int := 1000

  /** `Min<T>`: the left value when it compares lower, otherwise the right one. */
  function Min(left: int, right: int): (r: int)
    ensures r <= left && r <= right
    ensures r == left || r == right
  {
    if left < right then left else right
  }

  /** Every evaluation of the condition takes time. */
  ghost predicate TimeAdvances(cost: nat -> nat)
  {
    forall k :: cost(k) >= 1
  }

  /**
   * How one `WaitFor` loop ended: whether the condition was met, the final
   * stopwatch reading, and how many times the condition was evaluated.
   */
  datatype PollResult = PollResult(satisfied: bool, elapsed: int, evaluations: nat)

  /**
   * The `while (!condition())` loop of `WaitFor`, from evaluation `k` on, with
   * the stopwatch at `elapsed`.
   */
  function Poll(timeout: int, interval: int, condition: nat -> bool, cost: nat -> nat,
                k: nat, elapsed: int): (r: PollResult)
    requires interval >= 0 && TimeAdvances(cost)
    ensures r.evaluations >= 1
    ensures r.satisfied <==> condition(k + r.evaluations - 1)
    ensures !r.satisfied ==> timeout < r.elapsed
    ensures r.elapsed >= elapsed + r.evaluations
    decreases if elapsed < timeout then timeout - elapsed else 0
  {
    var now := elapsed + cost(k);
    if condition(k) then PollResult(true, now, 1)
    else
      var sleepAmount := Min(timeout - now, interval);
      if sleepAmount < 0 then PollResult(false, now, 1)
      else
        var rest := Poll(timeout, interval, condition, cost, k + 1, now + sleepAmount);
        rest.(evaluations := rest.evaluations + 1)
  }

  /**
   * The stopwatch when the loop, started at evaluation `k` with the stopwatch
   * at `elapsed`, begins its `i`-th round, had every earlier round slept.
   */
  function RoundStart(timeout: int, interval: int, cost: nat -> nat, k: nat, elapsed: int, i: nat): int
    decreases i
  {
    if i == 0 then elapsed
    else
      var now := elapsed + cost(k);
      RoundStart(timeout, interval, cost, k + 1, now + Min(timeout - now, interval), i - 1)
  }

  /** The stopwatch reading right after the `i`-th evaluation. */
  function Reading(timeout: int, interval: int, cost: nat -> nat, k: nat, elapsed: int, i: nat): int
  {
    RoundStart(timeout, interval, cost, k, elapsed, i) + cost(k + i)
  }

  /** The `sleepAmount` the `i`-th round computes. */
  function SleepAmount(timeout: int, interval: int, cost: nat -> nat, k: nat, elapsed: int, i: nat): int
  {
    Min(timeout - Reading(timeout, interval, cost, k, elapsed, i), interval)
  }

  /** A round that sleeps hands the next one the reading plus the sleep. */
  lemma {:induction false} RoundStartStep(timeout: int, interval: int, cost: nat -> nat,
      k: nat, elapsed: int, i: nat)
    ensures RoundStart(timeout, interval, cost, k, elapsed, i + 1)
         == Reading(timeout, interval, cost, k, elapsed, i) + SleepAmount(timeout, interval, cost, k, elapsed, i)
    decreases i
  {
    if i > 0 {
      var now := elapsed + cost(k);
      RoundStartStep(timeout, interval, cost, k + 1, now + Min(timeout - now, interval), i - 1);
    }
  }

  /**
   * Every round but the last saw the condition false and slept
   * `Min(timeout - reading, interval)`, which lies in `[0, interval]` and ends
   * no later than the timeout.
   */
  lemma {:induction false} PollRounds(timeout: int, interval: int, condition: nat -> bool,
      cost: nat -> nat, k: nat, elapsed: int, i: nat)
    requires interval >= 0 && TimeAdvances(cost)
    requires i + 1 < Poll(timeout, interval, condition, cost, k, elapsed).evaluations
    ensures !condition(k + i)
    ensures 0 <= SleepAmount(timeout, interval, cost, k, elapsed, i) <= interval
    ensures Reading(timeout, interval, cost, k, elapsed, i)
          + SleepAmount(timeout, interval, cost, k, elapsed, i) <= timeout
    decreases i
  {
    var now := elapsed + cost(k);
    var s := Min(timeout - now, interval);
    if i > 0 {
      PollRounds(timeout, interval, condition, cost, k + 1, now + s, i - 1);
    }
  }

  /** The loop ends at the last reading; when it gives up, that round's sleep is negative. */
  lemma {:induction false} PollLastRound(timeout: int, interval: int, condition: nat -> bool,
      cost: nat -> nat, k: nat, elapsed: int)
    requires interval >= 0 && TimeAdvances(cost)
    ensures var r := Poll(timeout, interval, condition, cost, k, elapsed);
      && r.elapsed == Reading(timeout, interval, cost, k, elapsed, r.evaluations - 1)
      && (!r.satisfied ==> SleepAmount(timeout, interval, cost, k, elapsed, r.evaluations - 1) < 0)
    decreases if elapsed < timeout then timeout - elapsed else 0
  {
    var now := elapsed + cost(k);
    var s := Min(timeout - now, interval);
    if !condition(k) && s >= 0 {
      PollLastRound(timeout, interval, condition, cost, k + 1, now + s);
    }
  }

  /** A condition that holds on its first evaluation ends the loop without sleeping. */
  lemma PollFirstTrue(timeout: int, interval: int, condition: nat -> bool, cost: nat -> nat,
                      k: nat, elapsed: int)
    requires interval >= 0 && TimeAdvances(cost)
    requires condition(k)
    ensures Poll(timeout, interval, condition, cost, k, elapsed) == PollResult(true, elapsed + cost(k), 1)
  {
  }

  /** The loop evaluates the condition at most `timeout - elapsed + 1` times. */
  lemma {:induction false} PollEvaluationsBounded(timeout: int, interval: int,
      condition: nat -> bool, cost: nat -> nat, k: nat, elapsed: int)
    requires interval >= 0 && TimeAdvances(cost)
    ensures Poll(timeout, interval, condition, cost, k, elapsed).evaluations
         <= (if elapsed < timeout then timeout - elapsed else 0) + 1
    decreases if elapsed < timeout then timeout - elapsed else 0
  {
    var now := elapsed + cost(k);
    if !condition(k) && Min(timeout - now, interval) >= 0 {
      var s := Min(timeout - now, interval);
      PollEvaluationsBounded(timeout, interval, condition, cost, k + 1, now + s);
    }
  }

  /** With no budget left, the loop returns the condition's first outcome. */
  lemma PollWithoutBudget(timeout: int, interval: int, condition: nat -> bool, cost: nat -> nat,
                          k: nat, elapsed: int)
    requires interval >= 0 && TimeAdvances(cost)
    requires elapsed >= timeout
    ensures Poll(timeout, interval, condition, cost, k, elapsed).satisfied == condition(k)
    ensures Poll(timeout, interval, condition, cost, k, elapsed).evaluations == 1
  {
  }

  /**
   * The loop of `WaitFor`, run from a stopwatch reading of `start`: evaluate
   * the condition; when it fails, sleep `Min(timeout - elapsed, interval)`,
   * or give up when that is negative.
   */
  method PollLoop(timeout: int, interval: int, condition: nat -> bool, cost: nat -> nat, start: int)
    returns (satisfied: bool, elapsed: int, ghost evaluations: nat, ghost sleeps: seq<int>)
    requires timeout >= 0 && interval >= 0 && TimeAdvances(cost)
    ensures satisfied == Poll(timeout, interval, condition, cost, 0, start).satisfied
    ensures elapsed == Poll(timeout, interval, condition, cost, 0, start).elapsed
    ensures evaluations == Poll(timeout, interval, condition, cost, 0, start).evaluations
    ensures |sleeps| == evaluations - 1
    ensures forall i :: 0 <= i < |sleeps| ==> sleeps[i] == SleepAmount(timeout, interval, cost, 0, start, i)
  {
    ghost var whole := Poll(timeout, interval, condition, cost, 0, start);
    PollLastRound(timeout, interval, condition, cost, 0, start);
    evaluations, sleeps := 0, [];
    elapsed := start;
    var k: nat := 0;
    while true
      invariant k < whole.evaluations
      invariant evaluations == k && |sleeps| == k
      invariant elapsed == RoundStart(timeout, interval, cost, 0, start, k)
      invariant forall i :: 0 <= i < k ==> sleeps[i] == SleepAmount(timeout, interval, cost, 0, start, i)
      decreases whole.evaluations - k
    {
      if k + 1 < whole.evaluations {
        PollRounds(timeout, interval, condition, cost, 0, start, k);
      }
      satisfied := condition(k);
      elapsed := elapsed + cost(k);
      evaluations := evaluations + 1;
      if satisfied {
        return;
      }
      var sleepAmount := Min(timeout - elapsed, interval);
      if sleepAmount < 0 {
        return;
      }
      RoundStartStep(timeout, interval, cost, 0, start, k);
      elapsed := elapsed + sleepAmount;
      sleeps := sleeps + [sleepAmount];
      k := k + 1;
    }
  }

  /** What a thrown exception carries. */
  datatype Exception = Exception(message: string)

  /** How running an action ended. */
  datatype Completion = Normal | Threw(exception: Exception)

  /** `TimeoutException`, with the message `EnsureSatisfied(message)` passes. */
  datatype TimeoutError = TimeoutError(message: Option<string>)

  class WaitHelper {
    const timeout: int
    const checkInterval: int
    /** The stopwatch started by the constructor. */
    var elapsed: int
    var isSatisfied: bool

    ghost predicate Valid()
      reads this
    {
      timeout >= 0 && checkInterval >= 0 && elapsed >= 0
    }

    /** `WithTimeout(timeout, pollingInterval)`. */
    constructor WithTimeout(timeout: int, pollingInterval: int)
      requires timeout >= 0 && pollingInterval >= 0
      ensures Valid()
      ensures this.timeout == timeout && checkInterval == pollingInterval
      ensures elapsed == 0 && isSatisfied
    {
      this.timeout := timeout;
      checkInterval := pollingInterval;
      elapsed := 0;
      isSatisfied := true;
    }

    /** `WithTimeout(timeout)`: polls once a second. */
    constructor WithTimeoutEverySecond(timeout: int)
      requires timeout >= 0
      ensures Valid()
      ensures this.timeout == timeout && checkInterval == DefaultCheckInterval
      ensures elapsed == 0 && isSatisfied
    {
      this.timeout := timeout;
      checkInterval := DefaultCheckInterval;
      elapsed := 0;
      isSatisfied := true;
    }

    /**
     * `WaitFor(condition)`.  The ghost results are the number of evaluations
     * and the sleeps between them.
     */
    method WaitFor(condition: nat -> bool, cost: nat -> nat)
      returns (ghost evaluations: nat, ghost sleeps: seq<int>)
      requires Valid() && TimeAdvances(cost)
      modifies this
      ensures Valid()
      ensures isSatisfied ==> old(isSatisfied)
      ensures !old(isSatisfied) ==> !isSatisfied && elapsed == old(elapsed) && evaluations == 0
      ensures old(isSatisfied) ==>
        var r := Poll(timeout, checkInterval, condition, cost, 0, old(elapsed));
        isSatisfied == r.satisfied && elapsed == r.elapsed && evaluations == r.evaluations
      ensures |sleeps| == if evaluations == 0 then 0 else evaluations - 1
      ensures forall i :: 0 <= i < |sleeps| ==>
        sleeps[i] == SleepAmount(timeout, checkInterval, cost, 0, old(elapsed), i)
    {
      if !isSatisfied {
        return 0, [];
      }
      var satisfied, clock;
      satisfied, clock, evaluations, sleeps := PollLoop(timeout, checkInterval, condition, cost, elapsed);
      elapsed, isSatisfied := clock, satisfied;
    }

    /** `EnsureSatisfied()`: throws a `TimeoutException` exactly when the wait timed out. */
    method EnsureSatisfied() returns (r: Outcome<TimeoutError>)
      ensures r.Fail? <==> !isSatisfied
      ensures r.Fail? ==> r.error.message == None
    {
      if !isSatisfied {
        return Fail(TimeoutError(None));
      }
      return Pass;
    }

    /** `EnsureSatisfied(message)`: the same, with the message on the exception. */
    method EnsureSatisfiedWithMessage(message: string) returns (r: Outcome<TimeoutError>)
      ensures r.Fail? <==> !isSatisfied
      ensures r.Fail? ==> r.error.message == Some(message)
    {
      if !isSatisfied {
        return Fail(TimeoutError(Some(message)));
      }
      return Pass;
    }
  }

  /** `SpinWait(condition, timeout, pollingInterval)`: one wait on a fresh helper. */
  method SpinWait(condition: nat -> bool, cost: nat -> nat, timeout: int, pollingInterval: int)
    returns (satisfied: bool)
    requires timeout >= 0 && pollingInterval >= 0 && TimeAdvances(cost)
    ensures satisfied == Poll(timeout, pollingInterval, condition, cost, 0, 0).satisfied
    ensures condition(0) ==> satisfied
    ensures timeout == 0 ==> satisfied == condition(0)
  {
    var helper := new WaitHelper.WithTimeout(timeout, pollingInterval);
    ghost var evaluations, sleeps := helper.WaitFor(condition, cost);
    satisfied := helper.isSatisfied;
    if timeout == 0 {
      PollWithoutBudget(timeout, pollingInterval, condition, cost, 0, 0);
    }
  }

  /** `SpinWait(condition, timeout)`: polls once a second. */
  method SpinWaitEverySecond(condition: nat -> bool, cost: nat -> nat, timeout: int)
    returns (satisfied: bool)
    requires timeout >= 0 && TimeAdvances(cost)
    ensures satisfied == Poll(timeout, DefaultCheckInterval, condition, cost, 0, 0).satisfied
  {
    satisfied := SpinWait(condition, cost, timeout, DefaultCheckInterval);
  }

  /** What `Try(action, out exception)` returns and what it stores in `exception`. */
  datatype TryResult = TryResult(succeeded: bool, exception: Option<Exception>)

  /** `Try(action, out exception)`: runs the action and catches what it throws. */
  function Try(action: Completion): (r: TryResult)
    ensures r.succeeded <==> action.Normal?
    ensures r.succeeded <==> r.exception == None
    ensures action.Threw? ==> r.exception == Some(action.exception)
  {
    match action
    case Normal => TryResult(true, None)
    case Threw(e) => TryResult(false, Some(e))
  }

  /** `Try(action)`: the same, without the exception. */
  predicate TrySucceeds(action: Completion)
    ensures TrySucceeds(action) <==> action.Normal?
  {
    Try(action).succeeded
  }

  /** `MakeTry(action)`: the condition whose k-th evaluation runs the action a k-th time. */
  function MakeTry(runs: nat -> Completion): (condition: nat -> bool)
    ensures forall k :: condition(k) <==> runs(k).Normal?
  {
    (k: nat) => TrySucceeds(runs(k))
  }
}
