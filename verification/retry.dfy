/**
 * `withRetry`: call an asynchronous function up to `maxAttempts` times, waiting between
 * attempts (doubling the wait when `backoff` is on), rethrowing at once an error whose message
 * says the user rejected the request, and otherwise throwing the last error once the attempts
 * are used up. `withRpcRetry` is the same loop with RPC defaults.
 */
module Retry {
  import opened Common

  /** A thrown value: an `Error` instance with its message, or anything else. */
  datatype Thrown = ErrorValue(message: string) | OtherValue

  /** What one call of `fn` settles to. */
  datatype Attempt<+T> = Resolved(value: T) | Rejected(error: Thrown)

  /** Who is told about a retry: the caller's own `onRetry`, or the RPC wrapper's warning. */
  datatype RetryHook = CallerHook | RpcWarning

  /** The options object as passed; `None` is a key that is absent. */
  datatype RetryOptions = RetryOptions(maxAttempts: Option<int>, delayMs: Option<int>, backoff: Option<bool>, onRetry: Option<RetryHook>)

  /** The options after the defaults are spread under them. */
  datatype Policy = Policy(maxAttempts: int, delayMs: int, backoff: bool, onRetry: Option<RetryHook>)

  /** The promise `withRetry` returns: resolved with a value, or rejected with the last error (`None` is `undefined`). */
  datatype RetryResult<+T> = Returned(value: T) | Threw(error: Option<Thrown>)

  const NoOptions := RetryOptions(None, None, None, None)

  /** `{ ...DEFAULT_OPTIONS, ...options }`: every key given wins over its default, and every absent key takes its default. */
  function Resolve(o: RetryOptions): (p: Policy)
    ensures o.maxAttempts.Some? ==> p.maxAttempts == o.maxAttempts.value
    ensures o.delayMs.Some? ==> p.delayMs == o.delayMs.value
    ensures o.backoff.Some? ==> p.backoff == o.backoff.value
    ensures o.maxAttempts.None? ==> p.maxAttempts == 3
    ensures o.delayMs.None? ==> p.delayMs == 1000
    ensures o.backoff.None? ==> p.backoff
    ensures p.onRetry == o.onRetry
  {
    Policy(
      if o.maxAttempts.Some? then o.maxAttempts.value else 3,
      if o.delayMs.Some? then o.delayMs.value else 1000,
      if o.backoff.Some? then o.backoff.value else true,
      o.onRetry)
  }

  /** The options `withRpcRetry` hands to `withRetry`: its own defaults, then the caller's keys. */
  function RpcOptions(o: RetryOptions): RetryOptions {
    RetryOptions(
      if o.maxAttempts.Some? then o.maxAttempts else Some(3),
      if o.delayMs.Some? then o.delayMs else Some(500),
      if o.backoff.Some? then o.backoff else Some(true),
      if o.onRetry.Some? then o.onRetry else Some(RpcWarning))
  }

  /** Without options the two entry points use 3 attempts, 1000 ms and 500 ms, with backoff. */
  lemma Defaults()
    ensures Resolve(NoOptions) == Policy(3, 1000, true, None)
    ensures Resolve(RpcOptions(NoOptions)) == Policy(3, 500, true, Some(RpcWarning))
  {
  }

  /** Every key the caller gives to `withRpcRetry` reaches the loop unchanged; the others take the RPC defaults. */
  lemma RpcCallerKeysWin(o: RetryOptions)
    ensures var p := Resolve(RpcOptions(o));
      && p.maxAttempts == (if o.maxAttempts.Some? then o.maxAttempts.value else 3)
      && p.delayMs == (if o.delayMs.Some? then o.delayMs.value else 500)
      && p.backoff == (if o.backoff.Some? then o.backoff.value else true)
      && p.onRetry == (if o.onRetry.Some? then o.onRetry else Some(RpcWarning))
  {
  }

  /** `s.includes(sub)`, scanning from the front. */
  predicate Contains(s: string, sub: string)
    decreases |s|
  {
    |sub| <= |s| && (s[..|sub|] == sub || Contains(s[1..], sub))
  }

  /** `sub` occurs in `s` starting at index `i`. */
  predicate OccursAt(s: string, sub: string, i: nat) {
    i + |sub| <= |s| && s[i..i + |sub|] == sub
  }

  /** The scan finds `sub` exactly when it occurs somewhere in `s`. */
  lemma {:induction false} ContainsOccurrence(s: string, sub: string)
    ensures Contains(s, sub) <==> exists i: nat :: OccursAt(s, sub, i)
    decreases |s|
  {
    if |sub| <= |s| && s[..|sub|] != sub {
      ContainsOccurrence(s[1..], sub);
      if Contains(s[1..], sub) {
        var i: nat :| OccursAt(s[1..], sub, i);
        assert s[i + 1..i + 1 + |sub|] == s[1..][i..i + |sub|];
        assert OccursAt(s, sub, i + 1);
      } else {
        forall i: nat | OccursAt(s, sub, i) ensures false {
          if i != 0 {
            assert s[1..][i - 1..i - 1 + |sub|] == s[i..i + |sub|];
            assert OccursAt(s[1..], sub, i - 1);
          }
        }
      }
    } else if |sub| <= |s| {
      assert OccursAt(s, sub, 0);
    }
  }

  /** The error is an `Error` whose message includes "User rejected" or "user rejected". */
  predicate IsUserRejection(e: Thrown) {
    e.ErrorValue? && (Contains(e.message, "User rejected") || Contains(e.message, "user rejected"))
  }

  /** A settled call after which the loop goes on: it threw, and not a user rejection. */
  predicate Retryable<T>(x: Attempt<T>) {
    x.Rejected? && !IsUserRejection(x.error)
  }

  function Pow2(n: nat): (r: nat)
    ensures r >= 1
  {
    if n == 0 then 1 else 2 * Pow2(n - 1)
  }

  function Max0(n: int): nat {
    if n < 0 then 0 else n
  }

  /** The wait after the failed attempt `attempt` (counted from 1). */
  function Delay(p: Policy, attempt: nat): int
    requires attempt >= 1
  {
    if p.backoff then p.delayMs * Pow2(attempt - 1) else p.delayMs
  }

  function Sum(s: seq<int>): int {
    if s == [] then 0 else Sum(s[..|s| - 1]) + s[|s| - 1]
  }

  lemma Doubling(d: int, q: int)
    ensures d * (q - 1) + d * q == d * (2 * q - 1)
  {
  }

  lemma Succ(d: int, n: int)
    ensures d * n + d == d * (n + 1)
  {
  }

  /**
   * With backoff, the waits after the first `n` attempts add up to `delayMs * (2^n - 1)`;
   * without it, to `delayMs * n`.
   */
  lemma {:induction false} TotalWait(p: Policy, sleeps: seq<int>)
    requires forall k :: 0 <= k < |sleeps| ==> sleeps[k] == Delay(p, k + 1)
    ensures p.backoff ==> Sum(sleeps) == p.delayMs * (Pow2(|sleeps|) - 1)
    ensures !p.backoff ==> Sum(sleeps) == p.delayMs * |sleeps|
  {
    if sleeps != [] {
      var n := |sleeps|;
      var init := sleeps[..n - 1];
      forall k | 0 <= k < |init| ensures init[k] == Delay(p, k + 1) {
        assert init[k] == sleeps[k];
      }
      TotalWait(p, init);
      assert Sum(sleeps) == Sum(init) + sleeps[n - 1];
      if p.backoff {
        Doubling(p.delayMs, Pow2(n - 1));
      } else {
        Succ(p.delayMs, n - 1);
      }
    }
  }

  /**
   * The loop of `withRetry`. `fn(a)` is what the `a`-th call settles to; `calls` counts the
   * calls made, `notices` the `onRetry` notifications and `sleeps` the waits, in order.
   */
  method WithRetry<T>(fn: nat -> Attempt<T>, options: RetryOptions)
    returns (result: RetryResult<T>, calls: nat, notices: seq<(nat, Thrown)>, sleeps: seq<int>)
    ensures var p := Resolve(options);
      // never more calls than attempts allowed, and none at all when none are allowed
      && calls <= Max0(p.maxAttempts)
      && (calls == 0 <==> p.maxAttempts <= 0)
      && (calls == 0 ==> result == Threw(None))
      // every call but the last threw an error that is not a user rejection
      && (forall a :: 1 <= a < calls ==> Retryable(fn(a)))
      // it stops early only on success or on a user rejection
      && (0 < calls < p.maxAttempts ==> !Retryable(fn(calls)))
      // the result is what the last call settled to: its value, or its error rethrown as is
      && (result.Returned? <==> calls >= 1 && fn(calls).Resolved?)
      && (result.Returned? ==> result.value == fn(calls).value)
      && (calls >= 1 && fn(calls).Rejected? ==> result == Threw(Some(fn(calls).error)))
      // one wait after each retried attempt, growing as the policy says
      && |sleeps| == Max0(calls - 1)
      && (forall k :: 0 <= k < |sleeps| ==> sleeps[k] == Delay(p, k + 1))
      && (p.backoff ==> Sum(sleeps) == p.delayMs * (Pow2(|sleeps|) - 1))
      // the hook, when there is one, hears of each retried attempt and its error
      && |notices| == (if p.onRetry.Some? then |sleeps| else 0)
      && (forall k :: 0 <= k < |notices| ==> fn(k + 1).Rejected? && notices[k] == (k + 1, fn(k + 1).error))
  {
    var p := Resolve(options);
    var lastError: Option<Thrown> := None;
    calls, notices, sleeps := 0, [], [];
    var attempt := 1;
    while attempt <= p.maxAttempts
      invariant 1 <= attempt <= Max0(p.maxAttempts) + 1
      invariant calls == attempt - 1
      invariant forall a :: 1 <= a < attempt ==> Retryable(fn(a))
      invariant lastError == if attempt == 1 then None else Some(fn(attempt - 1).error)
      invariant |sleeps| == Max0(if attempt <= p.maxAttempts then attempt - 1 else p.maxAttempts - 1)
      invariant forall k :: 0 <= k < |sleeps| ==> sleeps[k] == Delay(p, k + 1)
      invariant |notices| == (if p.onRetry.Some? then |sleeps| else 0)
      invariant forall k :: 0 <= k < |notices| ==> fn(k + 1).Rejected? && notices[k] == (k + 1, fn(k + 1).error)
    {
      calls := attempt;
      match fn(attempt) {
        case Resolved(v) =>
          result := Returned(v);
          TotalWait(p, sleeps);
          return;
        case Rejected(error) =>
          lastError := Some(error);
          if IsUserRejection(error) {
            result := Threw(Some(error));
            TotalWait(p, sleeps);
            return;
          }
          if attempt < p.maxAttempts {
            var delay := Delay(p, attempt);
            if p.onRetry.Some? {
              notices := notices + [(attempt, error)];
            }
            sleeps := sleeps + [delay];
          }
      }
      attempt := attempt + 1;
    }
    result := Threw(lastError);
    TotalWait(p, sleeps);
  }

  /** With the RPC defaults, a call that keeps failing is tried three times, waiting 500 ms and then 1000 ms. */
  lemma RpcDefaultSchedule()
    ensures var p := Resolve(RpcOptions(NoOptions));
      p.maxAttempts == 3 && Delay(p, 1) == 500 && Delay(p, 2) == 1000
  {
    assert Pow2(1) == 2;
  }
}
