/** The retry schedule (internal/delivery/backoff.go). */
module Backoff {
  import opened Text
  import opened TimeText

  /** Waiting times in seconds: 1m, 5m, 15m, 1h, 4h, 12h, 24h. */
  const SCHEDULE: seq<nat> := [60, 300, 900, 3600, 14_400, 43_200, 86_400]

  /** When to try again after `attempts` attempts, the one that just failed included. */
  function NextAttempt(attempts: int, now: Instant): Option<Instant> {
    if attempts < 1 || attempts > |SCHEDULE| then None
    else Some(now + SCHEDULE[attempts - 1] * NANOS)
  }

  /** The sum of the first `k` waiting times, in seconds. */
  function Waited(k: nat): nat
    requires k <= |SCHEDULE|
  {
    if k == 0 then 0 else Waited(k - 1) + SCHEDULE[k - 1]
  }

  /** The whole schedule spans 148860 seconds, 41 hours and 21 minutes. */
  lemma WaitedInFull()
    ensures Waited(7) == 148_860
  {
    assert Waited(2) == 360 && Waited(4) == Waited(2) + 4500 && Waited(6) == Waited(4) + 57_600;
  }

  /** A retry is due a whole number of seconds later, so truncating to the second loses nothing. */
  lemma RetrySecond(attempts: nat, now: Instant)
    requires 1 <= attempts <= 7
    ensures NextAttempt(attempts, now).Some?
    ensures Seconds(NextAttempt(attempts, now).value) == Seconds(now) + SCHEDULE[attempts - 1]
  {
  }
}
