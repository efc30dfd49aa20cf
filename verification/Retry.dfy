/** The retry loop around one provider, with doubling waits. */
module Retry {
  import opened Decimal

  datatype Reply<T> = Ok(value: T) | Temporary(error: string) | Fatal(error: string)

  datatype RetryResult<T> = Answer(value: T) | ProviderError(error: string) | ContextDone | ProviderFailed

  /** The first wait, in nanoseconds. */
  const FIRST_BACKOFF := 80_000_000

  /** The wait after attempt `j`; doubling is 64-bit and wraps. */
  function Backoff(j: nat): (b: int) {
    if j == 0 then FIRST_BACKOFF else Wrap(2 * Backoff(j - 1))
  }

  /** A timer for a negative span fires at once. */
  function Elapsed(span: int): (e: int) {
    if span < 0 then 0 else span
  }

  function TotalWait(k: nat): (w: int) {
    if k == 0 then 0 else TotalWait(k - 1) + Elapsed(Backoff(k - 1))
  }

  /** Whether the loop leaves at attempt `k`: a final reply, the last attempt, or a context that ends during the wait. */
  predicate Leaves<T>(replies: nat -> Reply<T>, done: nat -> bool, limit: int, k: nat) {
    !replies(k).Temporary? || k == limit || done(k)
  }

  function LeaveResult<T>(replies: nat -> Reply<T>, done: nat -> bool, limit: int, k: nat): (r: RetryResult<T>) {
    match replies(k)
    case Ok(v) => Answer(v)
    case Fatal(e) => ProviderError(e)
    case Temporary(e) => if k == limit then ProviderError(e) else ContextDone
  }

  /** `stop` is the attempt at which the loop leaves. */
  ghost predicate LeavesFirst<T>(replies: nat -> Reply<T>, done: nat -> bool, limit: int, stop: nat) {
    && stop <= limit
    && Leaves(replies, done, limit, stop)
    && forall j: nat :: j < stop ==> !Leaves(replies, done, limit, j)
  }

  /** What a search amounts to: the attempt it leaves at fixes its result, its calls and its waits. */
  ghost predicate IsOutcome<T>(
      replies: nat -> Reply<T>, done: nat -> bool, limit: int, r: RetryResult<T>, calls: nat, waited: int)
  {
    exists stop: nat ::
      && LeavesFirst(replies, done, limit, stop)
      && r == LeaveResult(replies, done, limit, stop) && calls == stop + 1 && waited == TotalWait(stop)
  }

  method SearchWithRetry<T>(replies: nat -> Reply<T>, done: nat -> bool, maxRetries: int)
    returns (result: RetryResult<T>, ghost calls: nat, ghost waited: int)
    ensures maxRetries < 0 ==> result == ProviderFailed
    ensures maxRetries < 0 ==> calls == 0 && waited == 0
    ensures maxRetries >= 0 ==> IsOutcome(replies, done, maxRetries, result, calls, waited)
  {
    calls, waited := 0, 0;
    var backoff := FIRST_BACKOFF;
    var attempt := 0;
    while attempt <= maxRetries
      invariant 0 <= attempt && (if maxRetries < 0 then attempt == 0 else attempt <= maxRetries)
      invariant calls == attempt && waited == TotalWait(attempt) && backoff == Backoff(attempt)
      invariant forall j: nat :: j < attempt ==> !Leaves(replies, done, maxRetries, j)
    {
      calls := calls + 1;
      assert Leaves(replies, done, maxRetries, attempt) ==> LeavesFirst(replies, done, maxRetries, attempt);
      var reply := replies(attempt);
      if reply.Ok? {
        return Answer(reply.value), calls, waited;
      }
      if !reply.Temporary? {
        return ProviderError(reply.error), calls, waited;
      }
      if attempt == maxRetries {
        return ProviderError(reply.error), calls, waited;
      }
      if done(attempt) {
        return ContextDone, calls, waited;
      }
      waited := waited + Elapsed(backoff);
      backoff := Wrap(2 * backoff);
      attempt := attempt + 1;
    }
    result := ProviderFailed;
  }

  /** Without cancellation the result is the first reply that is not temporary, or else the last temporary error. */
  lemma RetryExact<T>(replies: nat -> Reply<T>, done: nat -> bool, limit: nat, stop: nat, first: nat)
    requires LeavesFirst(replies, done, limit, stop)
    requires forall j: nat :: !done(j)
    requires forall j: nat :: j < first ==> replies(j).Temporary?
    ensures first <= limit && !replies(first).Temporary? ==>
              && stop == first
              && (replies(first).Ok? ==> LeaveResult(replies, done, limit, stop) == Answer(replies(first).value))
              && (replies(first).Fatal? ==> LeaveResult(replies, done, limit, stop) == ProviderError(replies(first).error))
    ensures first > limit ==> stop == limit && LeaveResult(replies, done, limit, stop) == ProviderError(replies(limit).error)
    ensures stop < limit ==> LeaveResult(replies, done, limit, stop) != ContextDone
  {
    assert first <= limit && !replies(first).Temporary? ==> Leaves(replies, done, limit, first);
    if first > limit {
      assert replies(stop).Temporary?;
    }
  }

  /** While every reply is temporary, a context that ends during a wait ends the search there, with the context's own error. */
  lemma RetryCancelled<T>(replies: nat -> Reply<T>, done: nat -> bool, limit: nat, stop: nat, k: nat)
    requires LeavesFirst(replies, done, limit, stop) && k < limit && done(k)
    requires forall j: nat :: j < k ==> !done(j)
    requires forall j: nat :: j <= k ==> replies(j).Temporary?
    ensures stop == k && LeaveResult(replies, done, limit, stop) == ContextDone
  {
    assert Leaves(replies, done, limit, k);
  }

  /** The loop leaves at one attempt only, and the error after the loop needs a negative limit. */
  lemma LeavesOnce<T>(replies: nat -> Reply<T>, done: nat -> bool, limit: int, i: nat, j: nat)
    requires LeavesFirst(replies, done, limit, i) && LeavesFirst(replies, done, limit, j)
    ensures i == j && LeaveResult(replies, done, limit, i) != ProviderFailed
  {
    assert Leaves(replies, done, limit, i) && Leaves(replies, done, limit, j);
  }

  function Pow2(k: nat): (p: nat)
    ensures p > 0
  {
    if k == 0 then 1 else 2 * Pow2(k - 1)
  }

  lemma {:induction false} Pow2Grows(i: nat, j: nat)
    requires i <= j
    ensures Pow2(i) <= Pow2(j)
  {
    if i == j {
    } else {
      Pow2Grows(i, j - 1);
    }
  }

  lemma Pow2Of36()
    ensures Pow2(36) == 0x10_0000_0000
  {
    assert Pow2(6) == 64;
    assert Pow2(12) == 64 * Pow2(6);
    assert Pow2(18) == 64 * Pow2(12);
    assert Pow2(24) == 64 * Pow2(18);
    assert Pow2(30) == 64 * Pow2(24);
    assert Pow2(36) == 64 * Pow2(30);
  }

  lemma {:induction false} BackoffIsGeometric(j: nat)
    requires j <= 36
    ensures Backoff(j) == FIRST_BACKOFF * Pow2(j)
  {
    if j == 0 {
    } else {
      BackoffIsGeometric(j - 1);
      Pow2Of36();
      Pow2Grows(j, 36);
    }
  }

  lemma BackoffFallsShort(j: nat)
    requires j >= 37
    ensures Elapsed(Backoff(j)) < FIRST_BACKOFF * Pow2(j)
  {
    Pow2Of36();
    assert Pow2(37) == 2 * Pow2(36);
    Pow2Grows(37, j);
  }

  /** The span waited after attempt `j`. */
  function WaitAfter(j: nat): (w: int)
    ensures j <= 36 ==> w == FIRST_BACKOFF * Pow2(j)
    ensures j >= 37 ==> w < FIRST_BACKOFF * Pow2(j)
  {
    if j <= 36 then
      BackoffIsGeometric(j);
      Elapsed(Backoff(j))
    else
      BackoffFallsShort(j);
      Elapsed(Backoff(j))
  }

  /** The waits add up to 80 ms, in nanoseconds, times (2^k - 1) exactly up to 37 retries; after that the doubled span has wrapped and they add up to less. */
  lemma {:induction false} TotalWaitIff(k: nat)
    ensures TotalWait(k) <= 80_000_000 * (Pow2(k) - 1)
    ensures TotalWait(k) == 80_000_000 * (Pow2(k) - 1) <==> k <= 37
  {
    if k == 0 {
    } else {
      TotalWaitIff(k - 1);
      assert TotalWait(k) == TotalWait(k - 1) + WaitAfter(k - 1) && Pow2(k) == 2 * Pow2(k - 1);
    }
  }
}
