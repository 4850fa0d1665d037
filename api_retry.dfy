/** The retry and rate-limit arithmetic of the client's HTTP layer
    (client/src/utils/api.js). Each attempt's outcome is an input: `outcome(k)` is
    what the k-th attempt of the request gets back. */
module ApiRetry {
  import opened Common

  const MaxRetries: nat := 3
  const BaseDelay: nat := 1000
  const MaxDelay: nat := 10000
  const RetryStatusCodes: set<int> := {429, 500, 502, 503, 504}

  /** What one attempt gets back: a response, or an error with the status of its
      response (`None` when there is no response at all). */
  datatype Outcome = Success | Failure(status: Option<int>)

  predicate ShouldRetry(retryCount: int, o: Outcome) {
    retryCount < MaxRetries && o.Failure? && o.status.Some? && o.status.value in RetryStatusCodes
  }

  function Pow2(n: nat): (p: nat)
    ensures p >= 1
  {
    if n == 0 then 1 else 2 * Pow2(n - 1)
  }

  /** `Math.min(baseDelay * 2 ** retryCount, maxDelay)`. */
  function BackoffDelay(retryCount: nat): (d: nat)
    ensures BaseDelay <= d <= MaxDelay
    ensures d == MaxDelay || d == BaseDelay * Pow2(retryCount)
  {
    if BaseDelay * Pow2(retryCount) < MaxDelay then BaseDelay * Pow2(retryCount) else MaxDelay
  }

  /** The delay doubles from one retry to the next until it reaches the cap. */
  lemma BackoffDoubles(n: nat)
    ensures BackoffDelay(n + 1) == if 2 * BackoffDelay(n) < MaxDelay then 2 * BackoffDelay(n) else MaxDelay
  {
  }

  /** The result of `retryRequest`: the outcome it settles on and the waits it made. */
  datatype Retried = Retried(final: Outcome, delays: seq<nat>)

  /** `retryRequest(config, retryCount)`: attempt; on a retryable failure wait the
      backoff delay and recurse with the count one higher; otherwise return or rethrow
      what the attempt got. */
  function RetryRequest(outcome: nat -> Outcome, retryCount: nat): (r: Retried)
    ensures retryCount <= MaxRetries ==> |r.delays| <= MaxRetries - retryCount
    ensures retryCount >= MaxRetries ==> r.delays == []
    ensures r.final == outcome(retryCount + |r.delays|)
    ensures forall j :: 0 <= j < |r.delays| ==>
      r.delays[j] == BackoffDelay(retryCount + j) && ShouldRetry(retryCount + j, outcome(retryCount + j))
    ensures !ShouldRetry(retryCount + |r.delays|, r.final)
    decreases if retryCount < MaxRetries then MaxRetries - retryCount else 0
  {
    var o := outcome(retryCount);
    if ShouldRetry(retryCount, o) then
      var rest := RetryRequest(outcome, retryCount + 1);
      Retried(rest.final, [BackoffDelay(retryCount)] + rest.delays)
    else
      Retried(o, [])
  }

  function SumDelays(ds: seq<nat>): nat {
    if ds == [] then 0 else ds[0] + SumDelays(ds[1..])
  }

  /** Started from zero, a request is attempted at most four times and its retries
      wait 1000, 2000 and 4000 ms at most, 7000 ms in all. */
  lemma {:induction false} RetryBudget(outcome: nat -> Outcome)
    ensures |RetryRequest(outcome, 0).delays| + 1 <= 4
    ensures SumDelays(RetryRequest(outcome, 0).delays) <= 7000
  {
    var ds := RetryRequest(outcome, 0).delays;
    assert BackoffDelay(0) == 1000 && BackoffDelay(1) == 2000 && BackoffDelay(2) == 4000;
    if |ds| == 0 {
    } else if |ds| == 1 {
      assert SumDelays(ds) == ds[0] + SumDelays(ds[1..]);
    } else if |ds| == 2 {
      assert SumDelays(ds) == ds[0] + SumDelays(ds[1..]);
      assert SumDelays(ds[1..]) == ds[1] + SumDelays(ds[2..]);
    } else {
      assert SumDelays(ds) == ds[0] + SumDelays(ds[1..]);
      assert SumDelays(ds[1..]) == ds[1] + SumDelays(ds[2..]);
      assert SumDelays(ds[2..]) == ds[2] + SumDelays(ds[3..]);
    }
  }

  /** A server that keeps answering 503 is tried four times, and the last 503 is
      rethrown after waits of 1000, 2000 and 4000 ms. */
  lemma AlwaysUnavailable()
    ensures RetryRequest(k => Failure(Some(503)), 0) == Retried(Failure(Some(503)), [1000, 2000, 4000])
  {
    var outcome: nat -> Outcome := k => Failure(Some(503));
    assert BackoffDelay(0) == 1000 && BackoffDelay(1) == 2000 && BackoffDelay(2) == 4000;
    assert RetryRequest(outcome, 3) == Retried(Failure(Some(503)), []);
    assert RetryRequest(outcome, 2) == Retried(Failure(Some(503)), [4000]);
    assert RetryRequest(outcome, 1) == Retried(Failure(Some(503)), [2000, 4000]);
  }

  /** An error outside the retry list, or one with no response, is rethrown at once. */
  lemma NotRetriedRethrown(outcome: nat -> Outcome, retryCount: nat)
    requires outcome(retryCount).Failure?
    requires outcome(retryCount).status.None? || outcome(retryCount).status.value !in RetryStatusCodes
    ensures RetryRequest(outcome, retryCount) == Retried(outcome(retryCount), [])
  {
  }

  // ---------------------------------------------------------------------------
  // The response interceptor

  /** The wait before retrying a 429: the `retry-after` header (the parsed number of
      seconds, `None` when absent) times 1000, else the base delay. */
  function RateLimitDelay(retryAfter: Option<int>): (d: int)
    ensures retryAfter.Some? ==> d == retryAfter.value * MsPerSecond
    ensures retryAfter.None? ==> d == BaseDelay
  {
    if retryAfter.Some? then retryAfter.value * 1000 else BaseDelay
  }

  /** What a call through the client ends with: the outcome it settles on, the waits
      it made and whether the token was dropped (a 401). */
  datatype Call = Call(final: Outcome, delays: seq<int>, signedOut: bool)

  function Shift(outcome: nat -> Outcome): nat -> Outcome {
    (k: nat) => outcome(k + 1)
  }

  /** The first attempt goes through the interceptors. A 401 drops the token and is
      rethrown; a 429 waits `RateLimitDelay` and hands the request to `retryRequest`
      from a count of zero, whose own attempts bypass the interceptors; anything
      else passes through. */
  function Request(outcome: nat -> Outcome, retryAfter: Option<int>): (c: Call)
    ensures outcome(0) != Failure(Some(429)) ==> c == Call(outcome(0), [], outcome(0) == Failure(Some(401)))
    ensures outcome(0) == Failure(Some(429)) ==>
      var r := RetryRequest(Shift(outcome), 0);
      c == Call(r.final, [RateLimitDelay(retryAfter)] + r.delays, false)
  {
    var first := outcome(0);
    if first == Failure(Some(401)) then Call(first, [], true)
    else if first == Failure(Some(429)) then
      var r := RetryRequest(Shift(outcome), 0);
      Call(r.final, [RateLimitDelay(retryAfter)] + r.delays, false)
    else Call(first, [], false)
  }

  /** A rate-limited call is attempted at most five times: the first attempt, then a
      fresh `retryRequest` with its own three retries. */
  lemma {:induction false} RateLimitedCallAttempts(outcome: nat -> Outcome, retryAfter: Option<int>)
    ensures |Request(outcome, retryAfter).delays| + 1 <= 5
    ensures outcome(0) == Failure(Some(429)) && (forall k: nat :: outcome(k) == Failure(Some(429))) ==>
      Request(outcome, retryAfter) == Call(Failure(Some(429)), [RateLimitDelay(retryAfter), 1000, 2000, 4000], false)
  {
    RetryBudget(Shift(outcome));
    if outcome(0) == Failure(Some(429)) && (forall k: nat :: outcome(k) == Failure(Some(429))) {
      var s := Shift(outcome);
      assert s(0) == outcome(1) && s(1) == outcome(2) && s(2) == outcome(3) && s(3) == outcome(4);
      assert BackoffDelay(0) == 1000 && BackoffDelay(1) == 2000 && BackoffDelay(2) == 4000;
      assert RetryRequest(s, 3) == Retried(Failure(Some(429)), []);
      assert RetryRequest(s, 2) == Retried(Failure(Some(429)), [4000]);
      assert RetryRequest(s, 1) == Retried(Failure(Some(429)), [2000, 4000]);
      assert RetryRequest(s, 0) == Retried(Failure(Some(429)), [1000, 2000, 4000]);
    }
  }

  /** `remainingNum < limitNum * 0.2`, both headers present. */
  predicate RateLimitWarning(remaining: Option<int>, limit: Option<int>) {
    remaining.Some? && limit.Some? && (remaining.value as real) < (limit.value as real) * 0.2
  }

  /** The warning fires exactly when fewer than a fifth of the requests remain. */
  lemma RateLimitWarningIff(remaining: int, limit: int)
    ensures RateLimitWarning(Some(remaining), Some(limit)) <==> 5 * remaining < limit
    ensures !RateLimitWarning(None, Some(limit)) && !RateLimitWarning(Some(remaining), None)
  {
  }
}
