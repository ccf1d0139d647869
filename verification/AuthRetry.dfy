/** The retry limiter of unlock, on a whole-second clock: growing delays after three failed password checks, and
    a lockout after ten. */
module AuthRetry {
  import opened Wrappers

  const MAX_BEFORE_DELAY := 3
  const MAX_BEFORE_LOCK := 10
  const LOCKOUT_SECONDS := 300

  function Power(n: nat): nat {
    if n == 0 then 1 else 2 * Power(n - 1)
  }

  function Delay(attempts: nat): nat {
    if MAX_BEFORE_DELAY <= attempts < MAX_BEFORE_LOCK then Power(attempts - MAX_BEFORE_DELAY) else 0
  }

  /** How long unlock sleeps after so many failed checks: 1, 2, 4, ... 64 seconds, and what the sleep takes longer. */
  function Slept(attempts: nat, over: nat): nat
    requires attempts < 10
  {
    if attempts < 3 then 0 else [1, 2, 4, 8, 16, 32, 64][attempts - 3] + over
  }

  /** Seconds that must pass before failed check number k (from 0), counted from the check before it. */
  function Gap(k: nat): nat {
    if k % 10 == 0 then LOCKOUT_SECONDS else Delay(k % 10)
  }

  ghost predicate Spaced(checks: seq<int>) {
    forall k, n :: 0 <= k < n < |checks| && n == k + 1 ==> checks[n] - checks[k] >= Gap(n)
  }

  class RetryLimiter {
    /** failed_attempts and lockout_until as stored. */
    var failedAttempts: int
    var lockoutUntil: Option<int>
    /** Times of the failed password checks since the last success. */
    ghost var checks: seq<int>
    /** The latest time seen. */
    var clock: int

    /** A lockout is on record right after every tenth failed check, and until an attempt after its end. */
    ghost predicate Valid()
      reads this
    {
      && failedAttempts == |checks| % 10
      && Spaced(checks)
      && (checks != [] ==> checks[|checks| - 1] <= clock)
      && (lockoutUntil.Some? ==> LockoutDue() && lockoutUntil.value == checks[|checks| - 1] + LOCKOUT_SECONDS)
      && (lockoutUntil.None? && LockoutDue() ==> checks[|checks| - 1] + LOCKOUT_SECONDS <= clock)
    }

    ghost predicate LockoutDue()
      reads this
    {
      checks != [] && failedAttempts == 0
    }

    /** The password may be checked now. */
    ghost predicate Admitted()
      reads this
    {
      lockoutUntil.None? && (checks != [] ==> checks[|checks| - 1] + Gap(|checks|) <= clock)
    }

    constructor ()
      ensures Valid() && checks == [] && failedAttempts == 0
    {
      failedAttempts := 0;
      lockoutUntil := None;
      checks := [];
      clock := 0;
    }

    /** unlock up to the password check, begun at `now` and sleeping `over` seconds longer than asked: refused
        exactly while a lockout lasts, with the time left. */
    method Admit(now: int, over: nat) returns (retryAfter: Option<int>)
      requires Valid() && clock <= now
      modifies this`lockoutUntil, this`clock
      ensures Valid() && clock >= now && 0 <= failedAttempts <= 9
      ensures retryAfter.Some? <==> old(lockoutUntil.Some?) && now < old(lockoutUntil).value
      ensures retryAfter.Some? ==>
        && 1 <= retryAfter.value <= 300 && now + retryAfter.value == old(lockoutUntil).value
        && lockoutUntil == old(lockoutUntil)
      ensures retryAfter.None? ==> Admitted() && lockoutUntil.None?
      ensures clock == now + if retryAfter.Some? then 0 else Slept(failedAttempts, over)
    {
      Powers();
      clock := now;
      if lockoutUntil.Some? {
        if now < lockoutUntil.value {
          return Some(lockoutUntil.value - now);
        }
      }
      lockoutUntil := None;
      if MAX_BEFORE_DELAY <= failedAttempts < MAX_BEFORE_LOCK {
        clock := now + Power(failedAttempts - MAX_BEFORE_DELAY) + over;
      }
      return None;
    }

    /** A wrong password: counted, and every tenth locks out. */
    method RecordFailure()
      requires Valid() && Admitted()
      modifies this
      ensures Valid() && 0 <= failedAttempts <= 9 && clock == old(clock)
      ensures checks == old(checks) + [clock]
      ensures lockoutUntil == if |checks| % 10 == 0 then Some(clock + LOCKOUT_SECONDS) else None
    {
      hide Gap;
      AddCheck(checks, clock);
      checks := checks + [clock];
      failedAttempts := failedAttempts + 1;
      if failedAttempts >= MAX_BEFORE_LOCK {
        lockoutUntil := Some(clock + LOCKOUT_SECONDS);
        failedAttempts := 0;
      }
    }

    method RecordSuccess()
      requires Valid()
      modifies this
      ensures Valid() && checks == [] && failedAttempts == 0 && lockoutUntil.None? && clock == old(clock)
    {
      checks := [];
      failedAttempts := 0;
      lockoutUntil := None;
    }

    /** The n-th failed check since the last success comes at least 427 seconds later for every ten before it. */
    lemma OwnChecksAreSlow(n: nat)
      requires Valid() && 1 <= n <= |checks|
      ensures checks[n - 1] >= checks[0] + 427 * ((n - 1) / 10)
      ensures 0 <= failedAttempts <= 9
    {
      GuessingIsSlow(checks, n);
    }
  }

  lemma AddCheck(checks: seq<int>, time: int)
    requires Spaced(checks) && (checks != [] ==> checks[|checks| - 1] + Gap(|checks|) <= time)
    ensures Spaced(checks + [time])
  {
    hide Gap;
  }

  /** Seconds that must pass between check 0 and check n. */
  function Total(n: nat): nat {
    if n == 0 then 0 else Total(n - 1) + Gap(n)
  }

  lemma {:induction false} TotalPasses(checks: seq<int>, n: nat)
    requires Spaced(checks) && n < |checks|
    ensures checks[n] - checks[0] >= Total(n)
  {
    if n > 0 {
      TotalPasses(checks, n - 1);
      assert checks[n] - checks[n - 1] >= Gap(n);
    }
  }

  lemma Powers()
    ensures Power(0) == 1 && Power(1) == 2 && Power(2) == 4 && Power(3) == 8 && Power(4) == 16 && Power(5) == 32
    ensures Power(6) == 64
  {
    assert Power(2) == 4;
    assert Power(4) == 16;
  }

  lemma GapAt(q: nat, r: nat)
    requires r < 10
    ensures Gap(10 * q + r) == if r == 0 then 300 else Delay(r)
  {
    assert (10 * q + r) % 10 == r;
  }

  lemma Delays()
    ensures Delay(1) == 0 && Delay(2) == 0 && Delay(3) == 1 && Delay(4) == 2 && Delay(5) == 4
    ensures Delay(6) == 8 && Delay(7) == 16 && Delay(8) == 32 && Delay(9) == 64
  {
    Powers();
  }

  /** One round of ten checks and a lockout takes 1 + 2 + ... + 64 + 300 seconds. */
  lemma RoundTotal(q: nat)
    ensures Total(10 * q + 10) == Total(10 * q) + 427
  {
    Delays();
    hide Delay, Gap;
    TotalStep(q, 0);
    TotalStep(q, 1);
    TotalStep(q, 2);
    TotalStep(q, 3);
    TotalStep(q, 4);
    TotalStep(q, 5);
    TotalStep(q, 6);
    TotalStep(q, 7);
    TotalStep(q, 8);
    GapAt(q + 1, 0);
  }

  lemma TotalStep(q: nat, r: nat)
    requires r < 9
    ensures Total(10 * q + r + 1) == Total(10 * q + r) + Delay(r + 1)
  {
    GapAt(q, r + 1);
  }

  lemma {:induction false} RoundsTotal(n: nat)
    ensures Total(n) >= 427 * (n / 10)
  {
    if n >= 10 {
      var q, r := n / 10 - 1, n % 10;
      RoundsTotal(10 * q);
      assert 10 * q / 10 == q;
      RoundTotal(q);
      TotalGrows(10 * q + 10, n);
    }
  }

  lemma {:induction false} TotalGrows(m: nat, n: nat)
    requires m <= n
    ensures Total(m) <= Total(n)
  {
    if m < n {
      TotalGrows(m, n - 1);
    }
  }

  /** The n-th failed check (from 1) comes at least 427 seconds later for every ten checks before it. */
  lemma GuessingIsSlow(checks: seq<int>, n: nat)
    requires Spaced(checks) && 1 <= n <= |checks|
    ensures checks[n - 1] >= checks[0] + 427 * ((n - 1) / 10)
  {
    TotalPasses(checks, n - 1);
    RoundsTotal(n - 1);
  }
}
