/** The wait-and-retry policy both HTTP clients configure: run the action, and while its outcome is
    one the policy handles and retries remain, wait `2^r` seconds before retry `r` (counted from
    1) and run it again. The last outcome is returned or thrown as it is. Attempts are a given
    function of their number; waiting is recorded, never performed. */
module Retry {
  import opened Numbers

  /** The attempt (counted from 0) whose outcome the policy hands back: the first unhandled
      one, or the last one allowed. */
  function FinalAttempt(maxRetries: nat, handled: nat -> bool): (k: nat)
    ensures k <= maxRetries
    ensures forall j :: 0 <= j < k ==> handled(j)
    ensures k < maxRetries ==> !handled(k)
  {
    FinalFrom(0, maxRetries, handled)
  }

  function FinalFrom(j: nat, maxRetries: nat, handled: nat -> bool): (k: nat)
    requires j <= maxRetries
    ensures j <= k <= maxRetries
    ensures forall i :: j <= i < k ==> handled(i)
    ensures k < maxRetries ==> !handled(k)
    decreases maxRetries - j
  {
    if j == maxRetries || !handled(j) then j else FinalFrom(j + 1, maxRetries, handled)
  }

  /** The waits before retries 1 .. n, in seconds. */
  function Delays(n: nat): (d: seq<nat>)
    ensures |d| == n
  {
    if n == 0 then [] else Delays(n - 1) + [Pow2(n)]
  }

  /** Retry `r` waits `2^r` seconds. */
  lemma {:induction false} DelayOfRetry(n: nat, r: nat)
    requires 1 <= r <= n
    ensures Delays(n)[r - 1] == Pow2(r)
  {
    if r < n {
      DelayOfRetry(n - 1, r);
    }
  }

  function Sum(s: seq<nat>): nat {
    if s == [] then 0 else Sum(s[..|s| - 1]) + s[|s| - 1]
  }

  /** The waits of `n` retries add up to `2^(n+1) - 2` seconds. */
  lemma {:induction false} TotalDelay(n: nat)
    ensures Sum(Delays(n)) == Pow2(n + 1) - 2
  {
    if n > 0 {
      TotalDelay(n - 1);
      assert Delays(n)[..n - 1] == Delays(n - 1);
    }
  }

  /** The policy's loop: `attempt(k)` is the outcome of attempt `k` and `handled(k)` says whether
      the policy handles it. Returns the outcome handed back, the number of attempts made and the
      waits taken. */
  method Execute<T>(maxRetries: nat, attempt: nat -> T, handled: nat -> bool)
    returns (outcome: T, attempts: nat, delays: seq<nat>)
    ensures attempts == FinalAttempt(maxRetries, handled) + 1
    ensures outcome == attempt(attempts - 1) && delays == Delays(attempts - 1)
  {
    delays := [];
    outcome := attempt(0);
    attempts := 1;
    while attempts <= maxRetries && handled(attempts - 1)
      invariant 1 <= attempts <= maxRetries + 1
      invariant outcome == attempt(attempts - 1)
      invariant delays == Delays(attempts - 1)
      invariant forall j :: 0 <= j < attempts - 1 ==> handled(j)
      decreases maxRetries + 1 - attempts
    {
      delays := delays + [Pow2(attempts)];
      outcome := attempt(attempts);
      attempts := attempts + 1;
    }
    FinalIsFirstStop(maxRetries, handled, attempts - 1);
  }

  /** An attempt number before which every outcome was handled, and at which the policy stops,
      is the final attempt. */
  lemma FinalIsFirstStop(maxRetries: nat, handled: nat -> bool, k: nat)
    requires k <= maxRetries
    requires forall j :: 0 <= j < k ==> handled(j)
    requires k < maxRetries ==> !handled(k)
    ensures FinalAttempt(maxRetries, handled) == k
  {
  }

  /** An attempt before the final one whose outcome is handled is followed by another. */
  lemma ContinuesPast(maxRetries: nat, handled: nat -> bool, k: nat)
    requires k <= FinalAttempt(maxRetries, handled) && k < maxRetries && handled(k)
    ensures k + 1 <= FinalAttempt(maxRetries, handled)
  {
  }

  /** An attempt not after the final one at which the policy stops is the final one. */
  lemma StopsAt(maxRetries: nat, handled: nat -> bool, k: nat)
    requires k <= FinalAttempt(maxRetries, handled) && (k == maxRetries || !handled(k))
    ensures FinalAttempt(maxRetries, handled) == k
  {
  }

  /** A policy with no retries makes exactly one attempt. */
  lemma NoRetriesOneAttempt(handled: nat -> bool)
    ensures FinalAttempt(0, handled) == 0
  {
  }

  /** An unhandled first outcome is handed back at once. */
  lemma UnhandledNotRetried(maxRetries: nat, handled: nat -> bool)
    requires !handled(0)
    ensures FinalAttempt(maxRetries, handled) == 0
  {
    FinalIsFirstStop(maxRetries, handled, 0);
  }
}
