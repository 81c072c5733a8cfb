/**
 The agent's retry loop: exponential backoff after failures, the regular interval after a success.
 */
module Backoff {
  import opened Prelude

  const DEFAULT_FAILURE_BACKOFF := 5_000_000_000
  const DEFAULT_MAX_BACKOFF := 60_000_000_000

  datatype Backoff = Backoff(failure: int, max: int)

  function ResolveDurations(failure: int, max: int): (b: Backoff)
    ensures 0 < b.failure <= b.max
    ensures failure > 0 ==> b.failure == failure
    ensures max > 0 && max >= b.failure ==> b.max == max
    ensures failure <= 0 ==> b.failure == 5 * SECOND
    ensures max <= 0 ==> b.max == if b.failure > 60 * SECOND then b.failure else 60 * SECOND
    ensures 0 < max < b.failure ==> b.max == b.failure
  {
    var f := if failure <= 0 then DEFAULT_FAILURE_BACKOFF else failure;
    var m := if max <= 0 then DEFAULT_MAX_BACKOFF else max;
    Backoff(f, if m < f then f else m)
  }

  /** The delay after that many failures in a row: doubled each time, up to the maximum. */
  function Delay(b: Backoff, failures: nat): int {
    var doubled := b.failure * Pow2(if failures <= 1 then 0 else failures - 1);
    if doubled < b.max then doubled else b.max
  }

  lemma {:induction false} DoublingGrows(b: Backoff, m: nat, n: nat)
    requires b.failure > 0 && m <= n
    ensures b.failure * Pow2(m) <= b.failure * Pow2(n)
    decreases n
  {
    if m < n {
      DoublingGrows(b, m, n - 1);
      assert b.failure * Pow2(n) == 2 * (b.failure * Pow2(n - 1));
      assert b.failure * Pow2(n - 1) >= 0;
    }
  }

  method ComputeBackoffDelay(failures: int, b: Backoff) returns (delay: int)
    requires 0 < b.failure <= b.max
    ensures delay == Delay(b, if failures < 0 then 0 else failures)
  {
    if failures <= 1 {
      return b.failure;
    }
    delay := b.failure;
    for attempt := 1 to failures
      invariant delay == b.failure * Pow2(attempt - 1)
      invariant attempt == 1 || delay < b.max
    {
      DoublingGrows(b, attempt - 1, failures - 1);
      if delay >= b.max {
        return b.max;
      }
      assert b.failure * Pow2(attempt) == 2 * (b.failure * Pow2(attempt - 1));
      delay := delay * 2;
      DoublingGrows(b, attempt, failures - 1);
      if delay >= b.max {
        return b.max;
      }
    }
  }

  /** How many of the latest passes failed in a row. */
  function Trailing(outcomes: seq<bool>): nat {
    if outcomes == [] || outcomes[|outcomes| - 1] then 0 else 1 + Trailing(outcomes[..|outcomes| - 1])
  }

  /** The count of trailing failures: that many passes failed, and the one before them, if any, succeeded. */
  lemma {:induction false} TrailingCountsIff(outcomes: seq<bool>, n: nat)
    ensures n == Trailing(outcomes) <==>
              && n <= |outcomes| && (forall i :: |outcomes| - n <= i < |outcomes| ==> !outcomes[i])
              && (n < |outcomes| ==> outcomes[|outcomes| - n - 1])
  {
    if outcomes != [] && !outcomes[|outcomes| - 1] && n > 0 {
      TrailingCountsIff(outcomes[..|outcomes| - 1], n - 1);
    }
  }

  /** RunLoop over the outcomes of its passes: the delay before each next one. */
  method RunLoop(outcomes: seq<bool>, interval: int, b: Backoff) returns (delays: seq<int>)
    requires interval > 0 && 0 < b.failure <= b.max
    ensures |delays| == |outcomes|
    ensures forall i :: 0 <= i < |outcomes| ==>
              delays[i] == if outcomes[i] then interval else Delay(b, Trailing(outcomes[..i + 1]))
  {
    var consecutiveFailures := 0;
    delays := [];
    for k := 0 to |outcomes|
      invariant |delays| == k && consecutiveFailures == Trailing(outcomes[..k])
      invariant forall i :: 0 <= i < k ==>
                  delays[i] == if outcomes[i] then interval else Delay(b, Trailing(outcomes[..i + 1]))
    {
      assert outcomes[..k + 1][..k] == outcomes[..k];
      if outcomes[k] {
        consecutiveFailures := 0;
        delays := delays + [interval];
      } else {
        consecutiveFailures := consecutiveFailures + 1;
        var delay := ComputeBackoffDelay(consecutiveFailures, b);
        delays := delays + [delay];
      }
    }
  }

  /** Delays never shrink while failures go on, never exceed the maximum, and reach it. */
  lemma DelayBounds(b: Backoff, m: nat, n: nat)
    requires 0 < b.failure <= b.max && m <= n
    ensures b.failure <= Delay(b, m) <= Delay(b, n) <= b.max
  {
    DoublingGrows(b, if m <= 1 then 0 else m - 1, if n <= 1 then 0 else n - 1);
    DoublingGrows(b, 0, if m <= 1 then 0 else m - 1);
  }

  /** The first failure waits the first backoff, and each further one twice as long, until the maximum. */
  lemma DelayDoubles(b: Backoff, failures: nat)
    requires 0 < b.failure <= b.max && failures >= 1
    ensures Delay(b, 1) == b.failure
    ensures Delay(b, failures + 1) == if 2 * Delay(b, failures) < b.max then 2 * Delay(b, failures) else b.max
  {
    assert Pow2(0) == 1;
    assert Pow2(failures) == 2 * Pow2(failures - 1);
    assert b.failure * Pow2(failures) == 2 * (b.failure * Pow2(failures - 1));
  }
}
