/**
 The cleanup task spawned when a Host run future is dropped (echo-sdk-host/src/lib.rs,
 `HostRunDropGuard::drop`): close, and while close fails sleep with a doubling delay and
 close again, reporting changed failures at once and identical ones at exponentially
 spaced counts.
 */
module CleanupRetry {
  import opened Prelude

  const FIRST_DELAY_MS: nat := 100
  const MAX_DELAY_MS: nat := 1000

  /** What one `close` attempt answered: None for Ok, otherwise the error text. */
  type Answer = Option<string>

  function Min(a: nat, b: nat): nat {
    if a < b then a else b
  }

  function Pow2(k: nat): (p: nat)
    ensures p > 0
  {
    if k == 0 then 1 else 2 * Pow2(k - 1)
  }

  predicate IsPowerOfTwo(n: nat) {
    n == 1 || (n > 1 && n % 2 == 0 && IsPowerOfTwo(n / 2))
  }

  /** Floor of the binary logarithm. */
  function Log2(n: nat): nat {
    if n < 2 then 0 else 1 + Log2(n / 2)
  }

  /** How many attempts fail before the first that succeeds. */
  function Failures(answers: seq<Answer>): (n: nat)
    ensures n <= |answers|
    ensures forall k :: 0 <= k < n ==> answers[k].Some?
    ensures n < |answers| ==> answers[n].None?
  {
    if answers == [] || answers[0].None? then 0 else 1 + Failures(answers[1..])
  }

  /** Attempt `k`, counted from 0, failed with an error that differs from the attempt before. */
  predicate Changed(answers: seq<Answer>, k: nat)
    requires k < |answers|
  {
    k > 0 && answers[k] != answers[k - 1]
  }

  /** The attempts whose failure is worth a line: the first, every changed one, and every count
      that is a power of two; the count saturates like the source's u64. */
  predicate Reported(answers: seq<Answer>, k: nat)
    requires k < |answers|
  {
    k == 0 || Changed(answers, k) || IsPowerOfTwo(Min(k + 1, U64_MAX))
  }

  function ReportsUpTo(answers: seq<Answer>, n: nat): seq<nat>
    requires n <= |answers|
  {
    if n == 0 then []
    else if Reported(answers, n - 1) then ReportsUpTo(answers, n - 1) + [n]
    else ReportsUpTo(answers, n - 1)
  }

  function ChangesUpTo(answers: seq<Answer>, n: nat): nat
    requires n <= |answers|
  {
    if n == 0 then 0 else ChangesUpTo(answers, n - 1) + (if Changed(answers, n - 1) then 1 else 0)
  }

  lemma DelayDoubles(k: nat)
    requires k > 0
    ensures Min(Min(FIRST_DELAY_MS * Pow2(k - 1), MAX_DELAY_MS) * 2, MAX_DELAY_MS)
            == Min(FIRST_DELAY_MS * Pow2(k), MAX_DELAY_MS)
  {
  }

  /** The spawned task, over the answers its attempts get: the sleeps it takes and the attempts
      it reports. It stops at the first success, or waits for an answer that has not come. */
  method RunCleanup(answers: seq<Answer>) returns (sleeps: seq<nat>, reports: seq<nat>, closed: bool)
    requires answers != []
    ensures closed <==> Failures(answers) < |answers|
    ensures |sleeps| == (if closed then Failures(answers) else |answers| - 1)
    ensures forall k :: 0 <= k < |sleeps| ==> sleeps[k] == Min(FIRST_DELAY_MS * Pow2(k), MAX_DELAY_MS)
    ensures reports == ReportsUpTo(answers, Failures(answers))
  {
    sleeps, reports := [], [];
    if answers[0].None? {
      return [], [], true;
    }
    reports := [1];
    var retryDelay := FIRST_DELAY_MS;
    var failedAttempts := 1;
    var lastError := answers[0];
    var k := 1;
    assert ReportsUpTo(answers, 1) == ReportsUpTo(answers, 0) + [1];
    FailuresAtLeast(answers, 1);
    while k < |answers|
      invariant 1 <= k <= |answers| && k <= Failures(answers)
      invariant |sleeps| == k - 1
      invariant forall j :: 0 <= j < |sleeps| ==> sleeps[j] == Min(FIRST_DELAY_MS * Pow2(j), MAX_DELAY_MS)
      invariant retryDelay == Min(FIRST_DELAY_MS * Pow2(k - 1), MAX_DELAY_MS)
      invariant failedAttempts == Min(k, U64_MAX)
      invariant lastError == answers[k - 1]
      invariant reports == ReportsUpTo(answers, k)
    {
      sleeps := sleeps + [retryDelay];
      if answers[k].None? {
        return sleeps, reports, true;
      }
      failedAttempts := Min(failedAttempts + 1, U64_MAX);
      if answers[k] != lastError || IsPowerOfTwo(failedAttempts) {
        reports := reports + [k + 1];
      }
      lastError := answers[k];
      DelayDoubles(k);
      retryDelay := Min(retryDelay * 2, MAX_DELAY_MS);
      FailuresAtLeast(answers, k + 1);
      k := k + 1;
    }
    closed := false;
  }

  lemma {:induction false} FailuresAtLeast(answers: seq<Answer>, n: nat)
    requires n <= |answers| && forall k :: 0 <= k < n ==> answers[k].Some?
    ensures n <= Failures(answers)
  {
    if n > 0 {
      forall k | 0 <= k < n - 1
        ensures answers[1..][k].Some?
      {
        assert answers[1..][k] == answers[k + 1];
      }
      FailuresAtLeast(answers[1..], n - 1);
    }
  }

  lemma PowerParity(j: nat)
    ensures Pow2(j) == 1 || Pow2(j) % 2 == 0
    ensures j > 0 ==> Pow2(j) > 1 && Pow2(j) / 2 == Pow2(j - 1)
  {
  }

  lemma {:induction false} PowersAreExact(n: nat) returns (k: nat)
    ensures IsPowerOfTwo(n) ==> n == Pow2(k)
    ensures !IsPowerOfTwo(n) ==> forall j: nat :: n != Pow2(j)
  {
    k := 0;
    forall j: nat
      ensures n == Pow2(j) ==> n == 1 || (n % 2 == 0 && j > 0 && n / 2 == Pow2(j - 1))
    {
      PowerParity(j);
    }
    if n > 1 && n % 2 == 0 {
      k := PowersAreExact(n / 2);
      k := k + 1;
    }
  }

  /** Attempt `n`, counted from 1, is worth a line: it is the first, or its error is not the one before,
      or its number is a power of two that the counter can hold. */
  ghost predicate DeservesReport(answers: seq<Answer>, n: nat)
    requires 1 <= n <= |answers|
  {
    n == 1 || answers[n - 1] != answers[n - 2] || (n <= U64_MAX && exists k: nat :: n == Pow2(k))
  }

  lemma ReportedExactly(answers: seq<Answer>, n: nat)
    requires 1 <= n <= |answers|
    ensures Reported(answers, n - 1) <==> DeservesReport(answers, n)
  {
    var k := PowersAreExact(n);
    assert !IsPowerOfTwo(U64_MAX);
  }

  /** The reports are exactly the attempts that deserve one, in order and once each. */
  lemma {:induction false} ReportsAreExact(answers: seq<Answer>, total: nat)
    requires total <= |answers|
    ensures forall n :: n in ReportsUpTo(answers, total) <==> 1 <= n <= total && DeservesReport(answers, n)
    ensures forall i, j :: 0 <= i < j < |ReportsUpTo(answers, total)| ==>
              ReportsUpTo(answers, total)[i] < ReportsUpTo(answers, total)[j]
  {
    if total > 0 {
      ReportsAreExact(answers, total - 1);
      ReportedExactly(answers, total);
      var before := ReportsUpTo(answers, total - 1);
      assert forall i :: 0 <= i < |before| ==> before[i] in before;
    }
  }

  /** The binary logarithm steps up exactly at the powers of two. */
  lemma {:induction false} Log2Steps(n: nat)
    requires n >= 2
    ensures Log2(n) == Log2(n - 1) + (if IsPowerOfTwo(n) then 1 else 0)
  {
    if n % 2 == 0 {
      if n >= 4 {
        Log2Steps(n / 2);
        assert (n - 1) / 2 == n / 2 - 1;
      }
    } else {
      assert (n - 1) / 2 == n / 2;
    }
  }

  /** N failures, C of them with a changed error, are reported at most floor(log2 N) + 1 + C times;
      without a change exactly floor(log2 N) + 1 times. */
  lemma {:induction false} ReportsAreLogarithmic(answers: seq<Answer>, n: nat)
    requires 0 < n <= |answers| && n <= U64_MAX
    ensures |ReportsUpTo(answers, n)| <= Log2(n) + 1 + ChangesUpTo(answers, n)
    ensures |ReportsUpTo(answers, n)| >= Log2(n) + 1
    ensures ChangesUpTo(answers, n) == 0 ==> |ReportsUpTo(answers, n)| == Log2(n) + 1
  {
    if n == 1 {
      assert ReportsUpTo(answers, 1) == ReportsUpTo(answers, 0) + [1];
      assert ChangesUpTo(answers, 0) == 0;
    } else {
      ReportsAreLogarithmic(answers, n - 1);
      Log2Steps(n);
    }
  }

  /** The delays double from 100 milliseconds, and the fourth doubling reaches the cap of one second. */
  lemma {:induction false} DelaysReachTheCap(k: nat)
    ensures FIRST_DELAY_MS <= Min(FIRST_DELAY_MS * Pow2(k), MAX_DELAY_MS) <= MAX_DELAY_MS
    ensures Min(FIRST_DELAY_MS * Pow2(k), MAX_DELAY_MS) == MAX_DELAY_MS <==> k >= 4
    ensures Min(FIRST_DELAY_MS * Pow2(k), MAX_DELAY_MS)
            == if k == 0 then 100 else if k == 1 then 200 else if k == 2 then 400 else if k == 3 then 800 else 1000
  {
    if k > 4 {
      DelaysReachTheCap(k - 1);
    } else {
      assert Pow2(1) == 2 && Pow2(2) == 4 && Pow2(3) == 8 && Pow2(4) == 16;
    }
  }
}
