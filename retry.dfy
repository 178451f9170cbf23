/**
 * `ContentProcessor._call_gemini_with_retry`: the call is repeated after a
 * rate-limit error (an error whose message contains "429") with an
 * exponentially growing wait, gives up on any other error, and gives up once
 * the retries are used up.
 *
 * The model service is the function `outcome`: `outcome(k)` is what the k-th
 * call (counting from 0) returns or raises. The sleeps are recorded as their
 * deterministic part `5 * 2^(attempt - 1)` seconds; the random jitter of one
 * to three seconds is not modelled.
 */
module Retry {
  import opened Common
  import opened Text

  /** What one call of the model service does: return a reply or raise an error. */
  datatype CallResult = Reply(text: string) | Raised(message: string)

  /** The first wait, `base_wait_time`. */
  const BaseWaitTime := 5

  /** The error is the quota error that is retried. */
  predicate RateLimited(message: string) {
    Contains(message, "429")
  }

  function Pow2(n: nat): (r: nat)
    ensures r >= 1
  {
    if n == 0 then 1 else 2 * Pow2(n - 1)
  }

  /** The deterministic part of the wait before retry number `attempt` (1-based). */
  function BaseWait(attempt: nat): nat
    requires attempt >= 1
  {
    BaseWaitTime * Pow2(attempt - 1)
  }

  /** The observable course of one retrying call: the reply returned (None for
      Python's `None`), how many calls were made and the waits slept, in order. */
  datatype RetryRun = RetryRun(response: Option<string>, calls: nat, waits: seq<nat>)

  /** The loop from `attempt` on, where `attempt` calls have already failed with a rate-limit error. */
  function RetryFrom(outcome: nat -> CallResult, maxRetries: int, attempt: nat): RetryRun
    decreases maxRetries + 1 - attempt
  {
    if attempt > maxRetries then RetryRun(None, 0, [])
    else
      match outcome(attempt)
      case Reply(text) => RetryRun(Some(text), 1, [])
      case Raised(message) =>
        if !RateLimited(message) || attempt + 1 > maxRetries then RetryRun(None, 1, [])
        else
          var rest := RetryFrom(outcome, maxRetries, attempt + 1);
          RetryRun(rest.response, rest.calls + 1, [BaseWait(attempt + 1)] + rest.waits)
  }

  /** `_call_gemini_with_retry(prompt, max_retries)`. */
  function RetryCall(outcome: nat -> CallResult, maxRetries: int): RetryRun {
    RetryFrom(outcome, maxRetries, 0)
  }

  /** The while loop of the source, with `attempt` counting the rate-limit errors. */
  method CallWithRetry(outcome: nat -> CallResult, maxRetries: int)
    returns (response: Option<string>, calls: nat, waits: seq<nat>)
    ensures RetryRun(response, calls, waits) == RetryCall(outcome, maxRetries)
  {
    var attempt: nat := 0;
    calls, waits := 0, [];
    while attempt <= maxRetries
      invariant calls == attempt && |waits| == attempt
      invariant var rest := RetryFrom(outcome, maxRetries, attempt);
        RetryCall(outcome, maxRetries) == RetryRun(rest.response, calls + rest.calls, waits + rest.waits)
      decreases maxRetries + 1 - attempt
    {
      calls := calls + 1;
      match outcome(attempt) {
        case Reply(text) =>
          assert waits + [] == waits;
          return Some(text), calls, waits;
        case Raised(message) =>
          if RateLimited(message) {
            attempt := attempt + 1;
            if attempt > maxRetries {
              assert waits + [] == waits;
              return None, calls, waits;
            }
            var waitTime := BaseWaitTime * Pow2(attempt - 1);
            ghost var rest := RetryFrom(outcome, maxRetries, attempt);
            assert waits + [waitTime] + rest.waits == waits + ([waitTime] + rest.waits);
            waits := waits + [waitTime];
          } else {
            assert waits + [] == waits;
            return None, calls, waits;
          }
      }
    }
    assert waits + [] == waits;
    return None, calls, waits;
  }

  /** Every run waits once between two calls, and the i-th wait (from 0) is `5 * 2^i`. */
  lemma {:induction false} RetryFromShape(outcome: nat -> CallResult, maxRetries: int, attempt: nat)
    ensures var r := RetryFrom(outcome, maxRetries, attempt);
      && (r.calls == 0 <==> attempt > maxRetries)
      && |r.waits| == Max(r.calls - 1, 0)
      && attempt + r.calls <= Max(maxRetries + 1, attempt)
      && forall i :: 0 <= i < |r.waits| ==> r.waits[i] == BaseWaitTime * Pow2(attempt + i)
    decreases maxRetries + 1 - attempt
  {
    if attempt <= maxRetries && outcome(attempt).Raised? && RateLimited(outcome(attempt).message) && attempt + 1 <= maxRetries {
      RetryFromShape(outcome, maxRetries, attempt + 1);
      var rest := RetryFrom(outcome, maxRetries, attempt + 1);
      var w := [BaseWait(attempt + 1)] + rest.waits;
      forall i | 0 <= i < |w| ensures w[i] == BaseWaitTime * Pow2(attempt + i) {
        if i > 0 { assert w[i] == rest.waits[i - 1]; }
      }
    }
  }

  /** The shape of a whole run: at most `max_retries + 1` calls, one wait fewer
      than calls, waits `5, 10, 20, ...`; a negative `max_retries` makes no call. */
  lemma RetryShape(outcome: nat -> CallResult, maxRetries: int)
    ensures var r := RetryCall(outcome, maxRetries);
      && (r.calls == 0 <==> maxRetries < 0)
      && r.calls <= Max(maxRetries + 1, 0)
      && |r.waits| == Max(r.calls - 1, 0)
      && (forall i :: 0 <= i < |r.waits| ==> r.waits[i] == 5 * Pow2(i))
      && (maxRetries < 0 ==> r.response == None)
  {
    RetryFromShape(outcome, maxRetries, 0);
  }

  /** The first `k` calls hit the quota. */
  predicate QuotaHitBefore(outcome: nat -> CallResult, k: nat) {
    forall i :: 0 <= i < k ==> outcome(i).Raised? && RateLimited(outcome(i).message)
  }

  lemma {:induction false} RetryFromAfterQuota(outcome: nat -> CallResult, maxRetries: int, attempt: nat, k: nat)
    requires attempt <= k <= maxRetries && QuotaHitBefore(outcome, k)
    ensures var r := RetryFrom(outcome, maxRetries, attempt);
      var rest := RetryFrom(outcome, maxRetries, k);
      r.response == rest.response && r.calls == rest.calls + (k - attempt)
    decreases k - attempt
  {
    if attempt < k {
      RetryFromAfterQuota(outcome, maxRetries, attempt + 1, k);
    }
  }

  /** When every call hits the quota: exactly `max_retries + 1` calls and
      `max_retries` waits, and no reply. */
  lemma QuotaAlwaysHit(outcome: nat -> CallResult, maxRetries: nat)
    requires QuotaHitBefore(outcome, maxRetries + 1)
    ensures var r := RetryCall(outcome, maxRetries);
      r.response == None && r.calls == maxRetries + 1 && |r.waits| == maxRetries
  {
    RetryFromAfterQuota(outcome, maxRetries, 0, maxRetries);
    RetryShape(outcome, maxRetries);
  }

  /** The first reply is returned at once, after the quota errors before it. */
  lemma FirstReplyReturned(outcome: nat -> CallResult, maxRetries: int, k: nat)
    requires k <= maxRetries && QuotaHitBefore(outcome, k) && outcome(k).Reply?
    ensures var r := RetryCall(outcome, maxRetries);
      r.response == Some(outcome(k).text) && r.calls == k + 1 && |r.waits| == k
  {
    RetryFromAfterQuota(outcome, maxRetries, 0, k);
    RetryShape(outcome, maxRetries);
  }

  /** An error other than the quota error ends the run with no reply and no further call. */
  lemma OtherErrorStops(outcome: nat -> CallResult, maxRetries: int, k: nat)
    requires k <= maxRetries && QuotaHitBefore(outcome, k)
    requires outcome(k).Raised? && !RateLimited(outcome(k).message)
    ensures var r := RetryCall(outcome, maxRetries);
      r.response == None && r.calls == k + 1
  {
    RetryFromAfterQuota(outcome, maxRetries, 0, k);
  }

  /** A reply is returned only if some call within the allowed number returned it
      after nothing but quota errors. */
  lemma {:induction false} ReplyComesFromACall(outcome: nat -> CallResult, maxRetries: int, attempt: nat)
    requires RetryFrom(outcome, maxRetries, attempt).response.Some?
    ensures var r := RetryFrom(outcome, maxRetries, attempt);
      var k := attempt + r.calls - 1;
      r.calls >= 1 && k <= maxRetries && outcome(k) == Reply(r.response.value)
    decreases maxRetries + 1 - attempt
  {
    if outcome(attempt).Raised? {
      ReplyComesFromACall(outcome, maxRetries, attempt + 1);
    }
  }
}
