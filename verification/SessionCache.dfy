/** Bounded retries around the session files (cms/session_cache.py:46-75). Times are microseconds. */
module SessionCache {
  import opened Wrappers

  const WAIT_STEP := 1_000
  const MAX_WAIT := 50_000
  const GET_RETRY_DELAY := 10_000

  /** How one call of the wrapped operation ends. `Busy` stands for the two errors that are retried. */
  datatype Outcome<+T, +E> = Done(value: T) | Busy | Failed(error: E)

  // ---------------------------------------------------------------------------
  // What a run amounts to
  // ---------------------------------------------------------------------------

  function Power2(n: nat): nat { if n == 0 then 1 else 2 * Power2(n - 1) }

  /** Time slept after `n` failures: the steps double. */
  function Slept(step: int, n: nat): int { step * (Power2(n) - 1) }

  /** `n` is the least number of failures that uses the limit up. */
  ghost predicate IsBudget(step: int, limit: int, n: nat) {
    Slept(step, n) >= limit && forall k: nat | k < n :: Slept(step, k) < limit
  }

  /** The first outcome other than `Busy` among calls `from` to `n - 1`; no value when there is none. */
  function Settled<T, E>(outcomes: nat -> Outcome<T, E>, from: nat, n: nat): Result<Option<T>, E>
    decreases n - from
  {
    if from >= n then Ok(None)
    else
      match outcomes(from)
      case Done(value) => Ok(Some(value))
      case Failed(error) => Err(error)
      case Busy => Settled(outcomes, from + 1, n)
  }

  lemma {:induction false} SettledAtFirst<T, E>(outcomes: nat -> Outcome<T, E>, from: nat, k: nat, n: nat)
    requires from <= k <= n && forall j: nat | from <= j < k :: outcomes(j) == Busy
    ensures k == n ==> Settled(outcomes, from, n) == Ok(None)
    ensures k < n && outcomes(k).Done? ==> Settled(outcomes, from, n) == Ok(Some(outcomes(k).value))
    ensures k < n && outcomes(k).Failed? ==> Settled(outcomes, from, n) == Err(outcomes(k).error)
    ensures k == n || !outcomes(k).Busy? ==>
              Failures(outcomes, from, n) == k - from && Tries(outcomes, from, n) == k - from + if k < n then 1 else 0
    decreases k - from
  {
    if from < k { SettledAtFirst(outcomes, from + 1, k, n); }
  }

  /** Calls made until one settles, that one included, but no more than up to `n`. */
  function Tries<T, E>(outcomes: nat -> Outcome<T, E>, from: nat, n: nat): (k: nat)
    ensures k <= if from < n then n - from else 0
    decreases n - from
  {
    if from >= n then 0 else if outcomes(from).Busy? then 1 + Tries(outcomes, from + 1, n) else 1
  }

  /** Those among them that failed. */
  function Failures<T, E>(outcomes: nat -> Outcome<T, E>, from: nat, n: nat): (k: nat)
    ensures k <= if from < n then n - from else 0
    decreases n - from
  {
    if from < n && outcomes(from).Busy? then 1 + Failures(outcomes, from + 1, n) else 0
  }

  lemma {:induction false} SleepGrows(step: int, a: nat, b: nat)
    requires step > 0 && a <= b
    ensures Slept(step, a) <= Slept(step, b) && Slept(step, b) >= b
    decreases b
  {
    if b > 0 {
      var p := Power2(b - 1);
      assert Slept(step, b) == Slept(step, b - 1) + step * p;
      assert step * p >= 1 by { PowerIsPositive(b - 1); Product(step, p); }
      if a < b { SleepGrows(step, a, b - 1); } else { SleepGrows(step, b - 1, b - 1); }
    }
  }

  lemma {:induction false} PowerIsPositive(n: nat)
    ensures Power2(n) >= 1
  {
    if n > 0 { PowerIsPositive(n - 1); }
  }

  lemma Product(a: int, b: int)
    requires a >= 1 && b >= 1
    ensures a * b >= 1
  {
  }

  lemma {:induction false} BudgetExists(step: int, limit: int, n: nat) returns (budget: nat)
    requires step > 0 && Slept(step, n) >= limit
    ensures IsBudget(step, limit, budget) && budget <= n
  {
    if n > 0 && Slept(step, n - 1) >= limit {
      budget := BudgetExists(step, limit, n - 1);
    } else {
      budget := n;
      forall k: nat | k < n ensures Slept(step, k) < limit { SleepGrows(step, k, n - 1); }
    }
  }

  /** After `n` failures: the time slept and the next step. */
  ghost predicate Asleep(step: int, limit: int, n: nat, slept: int, next: int) {
    && slept == Slept(step, n) && next == slept + step
    && 0 <= slept < 2 * limit + step
  }

  /** One step of the loop. */
  lemma OneMoreFailure(step: int, limit: int, n: nat, slept: int, next: int)
    requires step > 0 && Asleep(step, limit, n, slept, next) && slept < limit
    ensures Asleep(step, limit, n + 1, slept + next, next * 2)
  {
    assert Slept(step, n + 1) == 2 * Slept(step, n) + step;
  }

  /** The calls up to `next` failed, and the rest decides. */
  ghost predicate Ahead<T, E>(outcomes: nat -> Outcome<T, E>, first: nat, next: nat, end: nat) {
    && first <= next <= end
    && Settled(outcomes, first, end) == Settled(outcomes, next, end)
    && Tries(outcomes, first, end) == next - first + Tries(outcomes, next, end)
    && Failures(outcomes, first, end) == next - first + Failures(outcomes, next, end)
  }

  lemma OneCall<T, E>(outcomes: nat -> Outcome<T, E>, first: nat, next: nat, end: nat)
    requires Ahead(outcomes, first, next, end) && next < end
    ensures outcomes(next).Busy? ==> Ahead(outcomes, first, next + 1, end)
    ensures !outcomes(next).Busy? ==>
              && Tries(outcomes, first, end) == next + 1 - first && Failures(outcomes, first, end) == next - first
              && Settled(outcomes, first, end) ==
                 if outcomes(next).Done? then Ok(Some(outcomes(next).value)) else Err(outcomes(next).error)
  {
  }

  // ---------------------------------------------------------------------------
  // The operations
  // ---------------------------------------------------------------------------

  /** Calls until one settles or the budget is used up, asleep after each failure, and the first settled outcome. */
  method RunSafely<T, E>(outcomes: nat -> Outcome<T, E>, first: nat, step: int, limit: int)
    returns (r: Result<Option<T>, E>, next: nat, slept: int, ghost budget: nat)
    requires step > 0 && limit >= 0
    ensures IsBudget(step, limit, budget)
    ensures r == Settled(outcomes, first, first + budget)
    ensures next == first + Tries(outcomes, first, first + budget)
    ensures slept == Slept(step, Failures(outcomes, first, first + budget))
    ensures 0 <= slept < 2 * limit + step
  {
    SleepGrows(step, 0, limit);
    budget := BudgetExists(step, limit, limit);
    var output: Option<T> := None;
    var waitStep := step;
    slept := 0;
    next := first;
    while slept < limit
      invariant Ahead(outcomes, first, next, first + budget) && output == None
      invariant Asleep(step, limit, next - first, slept, waitStep)
      decreases first + budget - next
    {
      OneCall(outcomes, first, next, first + budget);
      OneMoreFailure(step, limit, next - first, slept, waitStep);
      next := next + 1;
      match outcomes(next - 1) {
        case Busy =>
          slept := slept + waitStep;
          waitStep := waitStep * 2;
        case Failed(error) =>
          return Err(error), next, slept, budget;
        case Done(value) =>
          output := Some(value);
          return Ok(output), next, slept, budget;
      }
    }
    r := Ok(output);
  }

  /** One lookup: a value, or a miss when the file could not be read. */
  function Found<T, E>(r: Result<Option<T>, E>): Option<T> {
    if r.Ok? then r.value else None
  }

  /** A miss is tried once more, after a pause; the second lookup goes on where the first has stopped. */
  method Get<T, E>(outcomes: nat -> Outcome<T, E>, step: int, limit: int, delay: nat)
    returns (result: Option<T>, calls: nat, slept: int, ghost budget: nat)
    requires step > 0 && limit >= 0
    ensures IsBudget(step, limit, budget)
    ensures var one, turn := Found(Settled(outcomes, 0, budget)), Tries(outcomes, 0, budget);
            var asleep := Slept(step, Failures(outcomes, 0, budget));
            if one.Some? then result == one && calls == turn && slept == asleep
            else && result == Found(Settled(outcomes, turn, turn + budget))
                 && calls == turn + Tries(outcomes, turn, turn + budget)
                 && slept == asleep + delay + Slept(step, Failures(outcomes, turn, turn + budget))
    ensures 0 <= slept < 2 * (2 * limit + step) + delay
  {
    var r, used, waited, n := RunSafely(outcomes, 0, step, limit);
    if r.Ok? && r.value.Some? {
      return r.value, used, waited, n;
    }
    var again, total, more, m := RunSafely(outcomes, used, step, limit);
    OneBudget(step, limit, n, m);
    result, calls, slept, budget := if again.Ok? then again.value else None, total, waited + delay + more, n;
  }

  lemma OneBudget(step: int, limit: int, n: nat, m: nat)
    requires IsBudget(step, limit, n) && IsBudget(step, limit, m)
    ensures n == m
  {
  }

  /** The time asleep stays within the limit if and only if the doubling steps add up to it exactly. */
  lemma LimitIsKeptIff(step: int, limit: int, n: nat)
    requires step > 0 && IsBudget(step, limit, n)
    ensures Slept(step, n) <= limit <==> exists k: nat :: Slept(step, k) == limit
  {
    if k: nat :| Slept(step, k) == limit { SleepGrows(step, n, k); }
  }

  /** The shipped settings allow six calls, and up to 63 ms asleep where the comment on the limit promises 50; a
      lookup that is tried again sleeps up to 136 ms. */
  lemma ShippedBudget()
    ensures IsBudget(WAIT_STEP, MAX_WAIT, 6) && Slept(WAIT_STEP, 6) == 63_000 && Slept(WAIT_STEP, 6) > MAX_WAIT
    ensures Slept(WAIT_STEP, 6) + GET_RETRY_DELAY + Slept(WAIT_STEP, 6) == 136_000
  {
    assert Power2(1) == 2 && Power2(2) == 4 && Power2(3) == 8 && Power2(4) == 16 && Power2(5) == 32 && Power2(6) == 64;
    forall k: nat | k < 6 ensures Slept(WAIT_STEP, k) < MAX_WAIT {
      SleepGrows(WAIT_STEP, k, 5);
    }
  }
}
